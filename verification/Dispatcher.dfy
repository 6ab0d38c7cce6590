/** Command parsing and the handler chain. */
module Dispatcher {
  import opened Text
  import opened Resp
  import opened Store

  // ---- Commands ----

  datatype Request = Request(name: string, args: seq<Option<string>>)

  /** The wire form of a command: an array of bulk strings, keyword first. */
  function AsValue(r: Request): RespValue {
    Array([BulkString(Some(r.name))] + seq(|r.args|, i requires 0 <= i < |r.args| => BulkString(r.args[i])))
  }

  function Arguments(vs: seq<RespValue>): (r: Option<seq<Option<string>>>) {
    if vs == [] then Some([])
    else if !vs[0].BulkString? then None
    else
      match Arguments(vs[1..])
      case None => None
      case Some(args) => Some([vs[0].payload] + args)
  }

  function ParseCommand(v: RespValue): (r: Option<Request>) {
    if !v.Array? || v.elements == [] then None
    else
      var first := v.elements[0];
      if !first.BulkString? || first.payload.None? || first.payload.value == "" then None
      else
        match Arguments(v.elements[1..])
        case None => None
        case Some(args) => Some(Request(first.payload.value, args))
  }

  lemma {:induction false} ArgumentsExactly(vs: seq<RespValue>, args: seq<Option<string>>)
    ensures Arguments(vs) == Some(args)
       <==> |vs| == |args| && forall i | 0 <= i < |vs| :: vs[i] == BulkString(args[i])
  {
    if vs != [] {
      if args != [] {
        ArgumentsExactly(vs[1..], args[1..]);
        assert args == [args[0]] + args[1..];
        if |vs| == |args| && forall i | 0 <= i < |vs| :: vs[i] == BulkString(args[i]) {
          assert forall i | 0 <= i < |vs[1..]| :: vs[1..][i] == vs[i + 1] && args[1..][i] == args[i + 1];
        }
        if Arguments(vs) == Some(args) {
          assert forall i | 1 <= i < |vs| :: vs[i] == vs[1..][i - 1] && args[i] == args[1..][i - 1];
        }
      }
    }
  }

  /** `ParseCommand` accepts exactly the wire forms of commands with a keyword. */
  lemma ParseCommandExactly(v: RespValue, r: Request)
    ensures ParseCommand(v) == Some(r) <==> r.name != "" && v == AsValue(r)
  {
    if v.Array? && v.elements != [] {
      var vs := v.elements;
      ArgumentsExactly(vs[1..], r.args);
      var w := AsValue(r).elements;
      assert w[0] == BulkString(Some(r.name));
      assert w[1..] == seq(|r.args|, i requires 0 <= i < |r.args| => BulkString(r.args[i]));
      assert vs == [vs[0]] + vs[1..];
      if ParseCommand(v) == Some(r) {
        assert vs[1..] == w[1..];
      }
    }
  }

  method ParseCommandLoop(v: RespValue) returns (r: Option<Request>)
    ensures r == ParseCommand(v)
  {
    if !v.Array? || v.elements == [] {
      return None;
    }
    var vs := v.elements;
    if !vs[0].BulkString? || vs[0].payload.None? || vs[0].payload.value == "" {
      return None;
    }
    var args: seq<Option<string>> := [];
    ghost var all := Arguments(vs[1..]);
    assert all.Some? ==> [] + all.value == all.value;
    for i := 1 to |vs|
      invariant |args| == i - 1
      invariant all == (match Arguments(vs[i..])
                        case None => None
                        case Some(rest) => Some(args + rest))
    {
      if !vs[i].BulkString? {
        return None;
      }
      assert vs[i..][1..] == vs[i + 1..];
      ghost var rest := Arguments(vs[i + 1..]);
      if rest.Some? {
        assert args + ([vs[i].payload] + rest.value) == (args + [vs[i].payload]) + rest.value;
      }
      args := args + [vs[i].payload];
    }
    assert args + [] == args;
    r := Some(Request(vs[0].payload.value, args));
  }

  // ---- Handlers ----

  /** Milliseconds per unit of a handler's times. */
  type Factor = n: int | 0 < n witness 1

  datatype Handler =
    | OnGet | OnSet | OnDel
    | OnExpire(name: string, factor: Factor, relative: bool)
    | OnTtl(name: string, factor: Factor)
    | OnPersist | OnEcho | OnPing | OnHello | OnAnything

  /** The chain, in the order the constructor pushes it. */
  const CHAIN: seq<Handler> := [
    OnGet, OnSet, OnDel,
    OnExpire("EXPIRE", 1000, true), OnExpire("PEXPIRE", 1, true),
    OnExpire("EXPIREAT", 1000, false), OnExpire("PEXPIREAT", 1, false),
    OnTtl("TTL", 1000), OnTtl("PTTL", 1),
    OnPersist, OnEcho, OnPing, OnHello, OnAnything]

  /** The argument is present and not empty. */
  predicate HasKey(r: Request) {
    |r.args| >= 1 && r.args[0].Some? && r.args[0].value != ""
  }

  function WholeInteger(arg: Option<string>): Option<int> {
    if arg.None? || arg.value == "" then None
    else
      match FromChars(arg.value)
      case None => None
      case Some((n, used)) => if used == |arg.value| then Some(n) else None
  }

  function ToOption(s: Option<string>): Option<ExpireOption> {
    if s == Some("NX") then Some(NX)
    else if s == Some("XX") then Some(XX)
    else if s == Some("GT") then Some(GT)
    else if s == Some("LT") then Some(LT)
    else None
  }

  predicate Claims(h: Handler, v: RespValue) {
    match ParseCommand(v)
    case None => h.OnAnything?
    case Some(r) =>
      match h
      case OnGet => r.name == "GET" && |r.args| == 1 && HasKey(r)
      case OnSet => r.name == "SET" && |r.args| == 2 && HasKey(r)
      case OnDel => r.name == "DEL" && |r.args| == 1 && HasKey(r)
      case OnExpire(name, _, _) =>
        && r.name == name && (|r.args| == 2 || |r.args| == 3) && HasKey(r)
        && WholeInteger(r.args[1]).Some?
        && (|r.args| == 2 || ToOption(r.args[2]).Some?)
      case OnTtl(name, _) => r.name == name && |r.args| == 1 && HasKey(r)
      case OnPersist => r.name == "PERSIST" && |r.args| == 1 && HasKey(r)
      case OnEcho => r.name == "ECHO" && |r.args| == 1
      case OnPing => r.name == "PING" && |r.args| <= 1
      case OnHello => r.name == "HELLO" && |r.args| <= 1
      case OnAnything => true
  }

  const HELLO_INFO: RespValue := Array([
    BulkString(Some("server")), BulkString(Some("myredis")),
    BulkString(Some("version")), BulkString(Some("0.1.0")),
    BulkString(Some("proto")), Integer(2),
    BulkString(Some("mode")), BulkString(Some("standalone")),
    BulkString(Some("role")), BulkString(Some("master")),
    BulkString(Some("modules")), Array([])])

  /** The expiry an EXPIRE-family request proposes. */
  function Proposed(h: Handler, r: Request, now: int): int
    requires h.OnExpire? && |r.args| >= 2 && WholeInteger(r.args[1]).Some?
  {
    (if h.relative then now else 0) + WholeInteger(r.args[1]).value * h.factor
  }

  function Handle(h: Handler, data: Data, now: int, v: RespValue): (Data, RespValue)
    requires Claims(h, v)
  {
    if h.OnAnything? then (data, SimpleError("Unknown subcommand or command"))
    else
      var r := ParseCommand(v).value;
      match h
      case OnGet => (data, BulkString(Get(data, r.args[0].value, now)))
      case OnSet => (Set(data, r.args[0].value, r.args[1]), SimpleString("OK"))
      case OnDel => (data - {r.args[0].value}, Integer(1))
      case OnExpire(_, factor, relative) =>
        var option := if |r.args| == 3 then ToOption(r.args[2]).value else NA;
        var key, t := r.args[0].value, Proposed(h, r, now);
        (ExpireAt(data, key, t, option), Integer(if CanExpire(data, key, t, option) then 1 else 0))
      case OnTtl(_, factor) =>
        var ttl := Ttl(data, r.args[0].value, now);
        (data, Integer(if ttl < 0 then ttl else ttl / factor))
      case OnPersist =>
        (Persist(data, r.args[0].value, now),
         Integer(if CanPersist(data, r.args[0].value, now) then 1 else 0))
      case OnEcho => (data, BulkString(r.args[0]))
      case OnPing => (data, if r.args == [] then SimpleString("PONG") else BulkString(r.args[0]))
      case OnHello =>
        (data, if |r.args| == 1 && r.args[0] != Some("2")
               then SimpleError("NOPROTO unsupported protocol version")
               else HELLO_INFO)
  }

  /** The first handler from `i` on that claims the request. */
  function FirstClaim(v: RespValue, i: nat): (h: Handler)
    requires i < |CHAIN|
    ensures Claims(h, v) && h in CHAIN
    decreases |CHAIN| - i
  {
    if Claims(CHAIN[i], v) then CHAIN[i]
    else
      assert CHAIN[|CHAIN| - 1] == OnAnything;
      FirstClaim(v, i + 1)
  }

  function Dispatch(data: Data, now: int, v: RespValue): (Data, RespValue) {
    Handle(FirstClaim(v, 0), data, now, v)
  }

  /** `Handle` of each handler, on the store it is bound to. */
  method HandleOn(h: Handler, store: Store, now: int, v: RespValue) returns (reply: RespValue)
    requires Claims(h, v)
    modifies store
    ensures (store.data, reply) == Handle(h, old(store.data), now, v)
  {
    if h.OnAnything? {
      return SimpleError("Unknown subcommand or command");
    }
    var parsed := ParseCommandLoop(v);
    var r := parsed.value;
    match h {
      case OnGet =>
        var value := store.DoGet(r.args[0].value, now);
        reply := BulkString(value);
      case OnSet =>
        store.DoSet(r.args[0].value, r.args[1]);
        reply := SimpleString("OK");
      case OnDel =>
        store.DoDel(r.args[0].value);
        reply := Integer(1);
      case OnExpire(_, factor, relative) =>
        var option := if |r.args| == 3 then ToOption(r.args[2]).value else NA;
        var base := if relative then now else 0;
        var changed := store.DoExpireAt(r.args[0].value, base + WholeInteger(r.args[1]).value * factor, option);
        reply := Integer(if changed then 1 else 0);
      case OnTtl(_, factor) =>
        var ttl := store.DoTtl(r.args[0].value, now);
        reply := Integer(if ttl < 0 then ttl else ttl / factor);
      case OnPersist =>
        var done := store.DoPersist(r.args[0].value, now);
        reply := Integer(if done then 1 else 0);
      case OnEcho => reply := BulkString(r.args[0]);
      case OnPing => reply := if r.args == [] then SimpleString("PONG") else BulkString(r.args[0]);
      case OnHello =>
        reply := if |r.args| == 1 && r.args[0] != Some("2")
                 then SimpleError("NOPROTO unsupported protocol version")
                 else HELLO_INFO;
    }
  }

  method DispatchLoop(store: Store, now: int, v: RespValue) returns (reply: RespValue)
    modifies store
    ensures (store.data, reply) == Dispatch(old(store.data), now, v)
  {
    var h := Claimant(v);
    reply := HandleOn(h, store, now, v);
  }

  /** The loop over the chain; it always ends at a claimant. */
  method Claimant(v: RespValue) returns (h: Handler)
    ensures h == FirstClaim(v, 0)
  {
    for i := 0 to |CHAIN|
      invariant i < |CHAIN| ==> FirstClaim(v, i) == FirstClaim(v, 0)
      invariant i == |CHAIN| ==> false
    {
      assert i == |CHAIN| - 1 ==> CHAIN[i] == OnAnything;
      if Claims(CHAIN[i], v) {
        return CHAIN[i];
      }
    }
    assert false;
  }

  function Keyword(h: Handler): string {
    match h
    case OnGet => "GET" case OnSet => "SET" case OnDel => "DEL"
    case OnExpire(name, _, _) => name
    case OnTtl(name, _) => name
    case OnPersist => "PERSIST" case OnEcho => "ECHO" case OnPing => "PING" case OnHello => "HELLO"
    case OnAnything => ""
  }

  /** The length and first three letters of a keyword already single out its handler. */
  function ByShape(n: nat, a: char, b: char, c: char): nat {
    if n == 3 then (if a == 'G' then 0 else if a == 'S' then 1 else if a == 'D' then 2 else 7)
    else if n == 6 then 3
    else if n == 7 then (if c == 'X' then 4 else 9)
    else if n == 8 then 5
    else if n == 9 then 6
    else if n == 4 then (if a == 'E' then 10 else if b == 'T' then 8 else 11)
    else 12
  }

  lemma KeywordShapes(i: nat)
    requires i < |CHAIN| - 1
    ensures var k := Keyword(CHAIN[i]); |k| >= 3 && ByShape(|k|, k[0], k[1], k[2]) == i
  {
    var k := Keyword(CHAIN[i]);
    assert i == 3 ==> k == "EXPIRE";
    assert i == 4 ==> k == "PEXPIRE";
    assert i == 5 ==> k == "EXPIREAT";
    assert i == 6 ==> k == "PEXPIREAT";
    assert i == 7 ==> k == "TTL";
    assert i == 8 ==> k == "PTTL";
  }

  /** No two handlers but the fallback ever claim one request, so only the fallback's
      place in the chain matters. */
  lemma ClaimsAreDisjoint(g: Handler, h: Handler, v: RespValue)
    requires g in CHAIN && h in CHAIN && !g.OnAnything? && !h.OnAnything?
    requires Claims(g, v) && Claims(h, v)
    ensures g == h
  {
    ClaimNeedsKeyword(g, v);
    ClaimNeedsKeyword(h, v);
    var i :| 0 <= i < |CHAIN| && CHAIN[i] == g;
    var j :| 0 <= j < |CHAIN| && CHAIN[j] == h;
    KeywordShapes(i);
    KeywordShapes(j);
  }

  lemma ClaimNeedsKeyword(h: Handler, v: RespValue)
    requires Claims(h, v) && !h.OnAnything?
    ensures ParseCommand(v).Some? && ParseCommand(v).value.name == Keyword(h)
  {
  }

  /** So `Dispatch` is whichever specific handler claims the request, wherever it is. */
  lemma DispatchIsTheClaimant(h: Handler, data: Data, now: int, v: RespValue)
    requires h in CHAIN && !h.OnAnything? && Claims(h, v)
    ensures Dispatch(data, now, v) == Handle(h, data, now, v)
  {
    var i :| 0 <= i < |CHAIN| && CHAIN[i] == h;
    FirstClaimIsEarly(v, 0, i);
    ClaimsAreDisjoint(FirstClaim(v, 0), h, v);
  }

  lemma {:induction false} FirstClaimIsEarly(v: RespValue, from: nat, i: nat)
    requires from <= i < |CHAIN| && Claims(CHAIN[i], v) && !CHAIN[i].OnAnything?
    ensures !FirstClaim(v, from).OnAnything?
    decreases i - from
  {
    hide Claims, FirstClaim;
    FirstClaimUnfold(v, from);
    if !Claims(CHAIN[from], v) {
      FirstClaimIsEarly(v, from + 1, i);
    }
  }

  lemma FirstClaimUnfold(v: RespValue, i: nat)
    requires i < |CHAIN|
    ensures Claims(CHAIN[i], v) ==> FirstClaim(v, i) == CHAIN[i]
    ensures !Claims(CHAIN[i], v) ==> i + 1 < |CHAIN| && FirstClaim(v, i) == FirstClaim(v, i + 1)
  {
    assert CHAIN[|CHAIN| - 1] == OnAnything;
    hide ParseCommand;
  }
}
