/** RESP2 values, their printer and their parser.

    `Parse` is the reference the parsing methods are proved against: it looks at
    the text that is left, where the methods move a position through the whole
    buffer. `Incomplete` is a thrown `std::out_of_range`, `Invalid` a thrown
    `std::invalid_argument`. */
module Resp {
  import opened Text

  datatype RespValue =
    | SimpleString(text: string)
    | SimpleError(message: string)
    | Integer(n: int)
    | BulkString(payload: Option<string>)
    | Array(elements: seq<RespValue>)

  datatype Outcome<+T> = Ok(value: T, used: nat) | Invalid | Incomplete

  // ---- Printing ----

  function Serialize(v: RespValue): (s: string)
    ensures |s| >= 3
    decreases v
  {
    match v
    case SimpleString(text) => "+" + text + "\r\n"
    case SimpleError(message) => "-" + message + "\r\n"
    case Integer(n) => ":" + ToString(n) + "\r\n"
    case BulkString(None) => "$-1\r\n"
    case BulkString(Some(p)) => "$" + ToString(|p|) + "\r\n" + p + "\r\n"
    case Array(vs) => "*" + ToString(|vs|) + "\r\n" + SerializeAll(vs)
  }

  function SerializeAll(vs: seq<RespValue>): string
    decreases vs
  {
    if vs == [] then "" else Serialize(vs[0]) + SerializeAll(vs[1..])
  }

  /** What a value must satisfy to survive the wire: 64-bit integers, lengths that
      fit `long long`, and no CR LF inside a simple string or error. */
  ghost predicate WellFormed(v: RespValue)
    decreases v
  {
    match v
    case SimpleString(text) => !HasCrlf(text)
    case SimpleError(message) => !HasCrlf(message)
    case Integer(n) => IsInt64(n)
    case BulkString(p) => p.Some? ==> |p.value| <= INT64_MAX
    case Array(vs) => |vs| <= INT64_MAX && AllWellFormed(vs)
  }

  ghost predicate AllWellFormed(vs: seq<RespValue>)
    decreases vs
  {
    forall i | 0 <= i < |vs| :: WellFormed(vs[i])
  }

  // ---- Parsing ----

  const KINDS: string := "+-:$*"

  function Parse(s: string): (r: Outcome<RespValue>)
    ensures r.Ok? ==> 3 <= r.used <= |s|
    decreases |s|, 1
  {
    if s == [] then Incomplete
    else if s[0] !in KINDS then Invalid
    else
      match FindCrlf(s[1..])
      case None => Incomplete
      case Some(i) => Advance(ParseBody(s[0], s[1..][..i], s[i + 3..]), i + 3)
  }

  function Advance<T>(r: Outcome<T>, n: nat): Outcome<T> {
    if r.Ok? then Ok(r.value, r.used + n) else r
  }

  /** The value announced by a first line of kind `kind`, whose text is `line` and
      which `rest` follows. */
  function ParseBody(kind: char, line: string, rest: string): (r: Outcome<RespValue>)
    requires kind in KINDS
    ensures r.Ok? ==> r.used <= |rest|
    decreases |rest|, 3
  {
    if kind == '+' then Ok(SimpleString(line), 0)
    else if kind == '-' then Ok(SimpleError(line), 0)
    else
      match ParseLongLong(line)
      case NotANumber => Invalid
      case TooBig => Incomplete
      case Number(n) =>
        if kind == ':' then Ok(Integer(n), 0)
        else if kind == '$' then ParsePayload(n, rest)
        else if n < 0 then Invalid
        else
          match ParseElements(rest, n)
          case Ok(vs, used) => Ok(Array(vs), used)
          case Invalid => Invalid
          case Incomplete => Incomplete
  }

  function ParsePayload(n: int, rest: string): (r: Outcome<RespValue>)
    ensures r.Ok? ==> r.used <= |rest|
  {
    if n == -1 then Ok(BulkString(None), 0)
    else if n <= -2 then Invalid
    else if n + 2 > |rest| then Incomplete
    else if rest[n] != '\r' || rest[n + 1] != '\n' then Incomplete
    else Ok(BulkString(Some(rest[..n])), n + 2)
  }

  function ParseElements(s: string, count: nat): (r: Outcome<seq<RespValue>>)
    ensures r.Ok? ==> r.used <= |s| && |r.value| == count
    decreases |s|, 2, count
  {
    if count == 0 then Ok([], 0)
    else if s == [] then Incomplete
    else
      match Parse(s)
      case Invalid => Invalid
      case Incomplete => Incomplete
      case Ok(v, n) =>
        match ParseElements(s[n..], count - 1)
        case Invalid => Invalid
        case Incomplete => Incomplete
        case Ok(vs, m) => Ok([v] + vs, n + m)
  }

  // ---- A verdict other than "incomplete" is final ----

  /** A success or an invalid_argument does not change when more text arrives. */
  lemma {:induction false} ParseExtends(s: string, t: string)
    requires !Parse(s).Incomplete?
    ensures Parse(s + t) == Parse(s)
    decreases |s|, 1
  {
    if s[0] in KINDS {
      var i := FindCrlf(s[1..]).value;
      FindCrlfExtends(s[1..], t);
      assert (s + t)[1..] == s[1..] + t;
      assert (s + t)[1..][..i] == s[1..][..i];
      assert (s + t)[i + 3..] == s[i + 3..] + t;
      BodyExtends(s[0], s[1..][..i], s[i + 3..], t);
    }
  }

  lemma {:induction false} BodyExtends(kind: char, line: string, rest: string, t: string)
    requires kind in KINDS && !ParseBody(kind, line, rest).Incomplete?
    ensures ParseBody(kind, line, rest + t) == ParseBody(kind, line, rest)
    decreases |rest|, 3
  {
    if kind in "$*" && ParseLongLong(line).Number? {
      var n := ParseLongLong(line).n;
      if kind == '*' && n >= 0 {
        ElementsExtend(rest, n, t);
      } else if kind == '$' && n >= 0 {
        assert (rest + t)[..n] == rest[..n];
      }
    }
  }

  lemma {:induction false} ElementsExtend(s: string, count: nat, t: string)
    requires !ParseElements(s, count).Incomplete?
    ensures ParseElements(s + t, count) == ParseElements(s, count)
    decreases |s|, 2, count
  {
    hide Parse, ParseElements;
    if count == 0 {
      NoElements(s);
      NoElements(s + t);
    } else {
      ElementsUnfold(s, count);
      ElementsUnfold(s + t, count);
      ParseExtends(s, t);
      if Parse(s).Ok? {
        var n := Parse(s).used;
        assert (s + t)[n..] == s[n..] + t;
        ElementsExtend(s[n..], count - 1, t);
      }
    }
  }

  lemma ElementsUnfold(s: string, count: nat)
    requires count > 0
    ensures ParseElements(s, count) ==
      match Parse(s)
      case Invalid => Invalid
      case Incomplete => Incomplete
      case Ok(v, n) =>
        match ParseElements(s[n..], count - 1)
        case Invalid => Invalid
        case Incomplete => Incomplete
        case Ok(vs, m) => Ok([v] + vs, n + m)
    ensures s == "" ==> ParseElements(s, count) == Incomplete
  {
  }

  lemma ElementsCons(s: string, v: RespValue, n: nat, tail: string, vs: seq<RespValue>, m: nat)
    requires Parse(s) == Ok(v, n) && tail == s[n..]
    requires ParseElements(tail, |vs|) == Ok(vs, m)
    ensures ParseElements(s, |vs| + 1) == Ok([v] + vs, n + m)
  {
  }

  lemma ElementsUncons(s: string, count: nat) returns (v: RespValue, n: nat, vs: seq<RespValue>, m: nat)
    requires count > 0 && ParseElements(s, count).Ok?
    ensures Parse(s) == Ok(v, n) && 3 <= n <= |s|
    ensures |vs| == count - 1 && m <= |s| - n
    ensures ParseElements(s[n..], count - 1) == Ok(vs, m)
    ensures ParseElements(s, count) == Ok([v] + vs, n + m)
  {
    v, n := Parse(s).value, Parse(s).used;
    var rest := ParseElements(s[n..], count - 1);
    vs, m := rest.value, rest.used;
  }

  // ---- A success depends on nothing past the bytes it consumed ----

  lemma {:induction false} ParseTruncates(s: string)
    requires Parse(s).Ok?
    ensures Parse(s[..Parse(s).used]) == Parse(s)
    decreases |s|, 1
  {
    hide Parse, ParseBody, HasCrlf;
    var line, rest := LineOf(s);
    var body := ParseBody(s[0], line, rest);
    var cut := rest[..body.used];
    BodyTruncates(s[0], line, rest);
    LineParses(s[0], line, "", cut);
    assert s[..Parse(s).used] == [s[0]] + line + "\r\n" + cut;
  }

  /** The line and the rest of a text that parses. */
  lemma LineOf(s: string) returns (line: string, rest: string)
    requires Parse(s).Ok?
    ensures s != "" && s[0] in KINDS && !HasCrlf(line)
    ensures s == [s[0]] + line + "\r\n" + rest
    ensures ParseBody(s[0], line, rest).Ok?
    ensures Parse(s) == Advance(ParseBody(s[0], line, rest), |line| + 3)
  {
    hide ParseBody, HasCrlf;
    var i := FindCrlf(s[1..]).value;
    line, rest := s[1..][..i], s[i + 3..];
    FindCrlfLineClean(s[1..]);
    hide FindCrlf;
    assert s == [s[0]] + s[1..];
  }

  lemma {:induction false} BodyTruncates(kind: char, line: string, rest: string)
    requires kind in KINDS && ParseBody(kind, line, rest).Ok?
    ensures ParseBody(kind, line, rest[..ParseBody(kind, line, rest).used])
         == ParseBody(kind, line, rest)
    decreases |rest|, 3
  {
    if kind == '*' {
      ElementsTruncate(rest, ParseLongLong(line).n);
    } else if kind == '$' && ParseLongLong(line).n >= 0 {
      var n := ParseLongLong(line).n;
      assert rest[..n + 2][..n] == rest[..n];
    }
  }

  lemma {:induction false} ElementsTruncate(s: string, count: nat)
    requires ParseElements(s, count).Ok?
    ensures ParseElements(s[..ParseElements(s, count).used], count) == ParseElements(s, count)
    decreases |s|, 2, count
  {
    hide *;
    if count == 0 {
      NoElements(s);
      NoElements(s[..0]);
    } else {
      var v, n, vs, m := ElementsUncons(s, count);
      ParseTruncates(s);
      ParseExtends(s[..n], s[n..n + m]);
      assert s[..n] + s[n..n + m] == s[..n + m];
      assert s[..n + m][n..] == s[n..][..m];
      ElementsTruncate(s[n..], count - 1);
      ElementsCons(s[..n + m], v, n, s[n..][..m], vs, m);
    }
  }

  lemma NoElements(s: string)
    ensures ParseElements(s, 0) == Ok([], 0)
  {
  }

  // ---- Everything the parser returns is well formed ----

  lemma {:induction false} ParsedIsWellFormed(s: string)
    requires Parse(s).Ok?
    ensures WellFormed(Parse(s).value)
    decreases |s|, 1
  {
    hide Parse, HasCrlf;
    var line, rest := LineOf(s);
    if s[0] == '*' {
      ElementsWellFormed(rest, ParseLongLong(line).n);
    }
  }

  lemma {:induction false} ElementsWellFormed(s: string, count: nat)
    requires ParseElements(s, count).Ok?
    ensures AllWellFormed(ParseElements(s, count).value)
    decreases |s|, 2, count
  {
    hide Parse, ParseElements, WellFormed;
    if count == 0 {
      NoElements(s);
    } else {
      var v, n, vs, m := ElementsUncons(s, count);
      ParsedIsWellFormed(s);
      ElementsWellFormed(s[n..], count - 1);
    }
  }

  // ---- Round trip ----

  /** `FromString(Serialize(v) ++ rest)` returns `v` and its exact length. */
  lemma {:induction false} RoundTrip(v: RespValue, rest: string)
    requires WellFormed(v)
    ensures Parse(Serialize(v) + rest) == Ok(v, |Serialize(v)|)
    decreases v
  {
    match v
    case SimpleString(text) =>
      LineRoundTrip('+', text, rest);
    case SimpleError(message) =>
      LineRoundTrip('-', message, rest);
    case Integer(n) =>
      hide Parse;
      HeaderParses(':', n, "", rest);
    case BulkString(p) =>
      BulkRoundTrip(p, rest);
    case Array(vs) =>
      RoundTripAll(vs, rest);
      ArrayFrom(vs, rest);
  }

  lemma LineRoundTrip(kind: char, text: string, rest: string)
    requires kind in "+-" && !HasCrlf(text)
    ensures Parse([kind] + text + "\r\n" + rest)
         == Ok(if kind == '+' then SimpleString(text) else SimpleError(text), |text| + 3)
  {
    hide Parse, HasCrlf;
    LineParses(kind, text, "", rest);
  }

  lemma BulkRoundTrip(p: Option<string>, rest: string)
    requires p.Some? ==> |p.value| <= INT64_MAX
    ensures Parse(Serialize(BulkString(p)) + rest) == Ok(BulkString(p), |Serialize(BulkString(p))|)
  {
    hide Parse, ParseLongLong;
    match p
    case None =>
      assert "$" + ToString(-1) + "\r\n" == Serialize(BulkString(p));
      hide ToString;
      HeaderParses('$', -1, "", rest);
    case Some(text) =>
      hide ToString, ParsePayload;
      assert Serialize(BulkString(p)) == "$" + ToString(|text|) + "\r\n" + (text + "\r\n");
      HeaderParses('$', |text|, text + "\r\n", rest);
      PayloadParses(text, rest);
  }

  lemma ArrayFrom(vs: seq<RespValue>, rest: string)
    requires |vs| <= INT64_MAX
    requires ParseElements(SerializeAll(vs) + rest, |vs|) == Ok(vs, |SerializeAll(vs)|)
    ensures Parse(Serialize(Array(vs)) + rest) == Ok(Array(vs), |Serialize(Array(vs))|)
  {
    hide Parse, ParseElements, SerializeAll, ToString, ParseLongLong;
    HeaderParses('*', |vs|, SerializeAll(vs), rest);
  }

  /** A line of kind `kind` is found whole, with `body + rest` after it. */
  lemma LineParses(kind: char, line: string, body: string, rest: string)
    requires kind in KINDS && !HasCrlf(line)
    ensures Parse([kind] + line + "\r\n" + body + rest)
         == Advance(ParseBody(kind, line, body + rest), |line| + 3)
    ensures body == "" ==>
      Parse([kind] + line + "\r\n" + rest) == Advance(ParseBody(kind, line, rest), |line| + 3)
  {
    hide Parse, ParseBody, FindCrlf, HasCrlf;
    var s, after := [kind] + line + "\r\n" + body + rest, body + rest;
    assert s == [kind] + (line + "\r\n" + after);
    LineStarts(kind, line, after);
    if body == "" {
      assert after == rest && s == [kind] + line + "\r\n" + rest;
    }
  }

  lemma LineStarts(kind: char, line: string, after: string)
    requires kind in KINDS && !HasCrlf(line)
    ensures Parse([kind] + (line + "\r\n" + after)) == Advance(ParseBody(kind, line, after), |line| + 3)
  {
    hide ParseBody, FindCrlf, HasCrlf;
    var t := line + "\r\n" + after;
    var s := [kind] + t;
    FindCrlfAfter(line, after);
    assert s[1..] == t && t[..|line|] == line && t[|line| + 2..] == after;
    assert s[|line| + 3..] == s[1..][|line| + 2..];
  }

  lemma HeaderParses(kind: char, n: int, body: string, rest: string)
    requires kind in KINDS && IsInt64(n)
    ensures ParseLongLong(ToString(n)) == Number(n)
    ensures Parse([kind] + ToString(n) + "\r\n" + body + rest)
         == Advance(ParseBody(kind, ToString(n), body + rest), |ToString(n)| + 3)
    ensures body == "" ==>
      Parse([kind] + ToString(n) + "\r\n" + rest)
      == Advance(ParseBody(kind, ToString(n), rest), |ToString(n)| + 3)
  {
    ParseLongLongOfToString(n);
    LineParses(kind, ToString(n), body, rest);
  }

  lemma PayloadParses(p: string, rest: string)
    ensures ParsePayload(|p|, p + "\r\n" + rest) == Ok(BulkString(Some(p)), |p| + 2)
  {
    assert (p + "\r\n" + rest)[..|p|] == p;
  }

  lemma {:induction false} RoundTripAll(vs: seq<RespValue>, rest: string)
    requires AllWellFormed(vs)
    ensures ParseElements(SerializeAll(vs) + rest, |vs|) == Ok(vs, |SerializeAll(vs)|)
    decreases vs
  {
    hide Parse, ParseElements, WellFormed, Serialize, SerializeAll;
    SerializeAllUnfold(vs);
    if vs == [] {
      NoElements(SerializeAll(vs) + rest);
    } else {
      var head, tail := Serialize(vs[0]), SerializeAll(vs[1..]);
      RoundTrip(vs[0], tail + rest);
      RoundTripAll(vs[1..], rest);
      var s := head + (tail + rest);
      assert s == (head + tail) + rest;
      assert s[|head|..] == tail + rest;
      assert vs == [vs[0]] + vs[1..];
      ElementsCons(s, vs[0], |head|, tail + rest, vs[1..], |tail|);
    }
  }

  lemma SerializeAllUnfold(vs: seq<RespValue>)
    ensures SerializeAll(vs) == if vs == [] then "" else Serialize(vs[0]) + SerializeAll(vs[1..])
  {
  }

  /** Exactly the well-formed values survive, whatever follows them. */
  lemma RoundTripExact(v: RespValue, rest: string)
    ensures Parse(Serialize(v) + rest) == Ok(v, |Serialize(v)|) <==> WellFormed(v)
  {
    if WellFormed(v) {
      RoundTrip(v, rest);
    } else if Parse(Serialize(v) + rest) == Ok(v, |Serialize(v)|) {
      ParsedIsWellFormed(Serialize(v) + rest);
    }
  }

  /** No serialized value is a proper prefix of another: a reply stream has one
      reading only. */
  lemma PrefixFree(v: RespValue, w: RespValue, s: string, t: string)
    requires WellFormed(v) && WellFormed(w)
    requires Serialize(v) + s == Serialize(w) + t
    ensures v == w && s == t
  {
    RoundTrip(v, s);
    RoundTrip(w, t);
    assert s == (Serialize(v) + s)[|Serialize(v)|..];
    assert t == (Serialize(w) + t)[|Serialize(w)|..];
  }
}
