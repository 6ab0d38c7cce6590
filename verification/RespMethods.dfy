/** The printer and the parser as the code runs them: one position moved through
    the whole buffer, and loops that append. Each is proved equal to the reference
    in `Resp`. */
module RespMethods {
  import opened Text
  import opened Resp
  import opened RespGrammar

  /** `FromString`: parse one value at the front of `str`. */
  method FromString(str: string) returns (r: Outcome<RespValue>)
    ensures r == Parse(str)
    ensures forall v, n: nat :: r == Ok(v, n) <==> n <= |str| && IsText(v, str[..n])
    ensures r.Invalid? <==> Stops(str, true)
    ensures r.Incomplete? <==> Stops(str, false)
  {
    r := ParseVariant(str, 0);
    assert str[0..] == str;
  }

  method ParseVariant(str: string, start: nat) returns (r: Outcome<RespValue>)
    requires start <= |str|
    ensures r == Parse(str[start..])
    ensures forall v, n: nat :: r == Ok(v, n) <==> n <= |str| - start && IsText(v, str[start..][..n])
    ensures r.Invalid? <==> Stops(str[start..], true)
    ensures r.Incomplete? <==> Stops(str[start..], false)
    decreases |str| - start, 1
  {
    hide IsText, Stops;
    ParseExactly(str[start..]);
    if start >= |str| {
      return Incomplete;
    }
    var kind := str[start];
    if kind == '+' {
      r := ParseSimpleString(str, start);
    } else if kind == '-' {
      r := ParseSimpleError(str, start);
    } else if kind == ':' {
      r := ParseInteger(str, start);
    } else if kind == '$' {
      r := ParseBulkString(str, start);
    } else if kind == '*' {
      r := ParseArray(str, start);
    } else {
      r := Invalid;
    }
  }

  /** The text of the line that starts after the prefix at `start`, if its CR LF
      has arrived. */
  method Line(str: string, start: nat) returns (line: Option<string>)
    requires start < |str| && str[start] in KINDS
    ensures line.None? ==> Parse(str[start..]) == Incomplete
    ensures line.Some? ==>
      && start + |line.value| + 3 <= |str|
      && Parse(str[start..]) ==
           Advance(ParseBody(str[start], line.value, str[start + |line.value| + 3..]), |line.value| + 3)
  {
    var s := str[start..];
    assert s[1..] == str[start + 1..];
    var found := FindCrlf(str[start + 1..]);
    if found.None? {
      return None;
    }
    var i := found.value;
    line := Some(str[start + 1..start + 1 + i]);
    assert s[1..][..i] == line.value && s[i + 3..] == str[start + i + 3..];
  }

  method ParseSimpleString(str: string, start: nat) returns (r: Outcome<RespValue>)
    requires start < |str| && str[start] == '+'
    ensures r == Parse(str[start..])
  {
    var line := Line(str, start);
    r := if line.None? then Incomplete else Ok(SimpleString(line.value), |line.value| + 3);
  }

  method ParseSimpleError(str: string, start: nat) returns (r: Outcome<RespValue>)
    requires start < |str| && str[start] == '-'
    ensures r == Parse(str[start..])
  {
    var line := Line(str, start);
    r := if line.None? then Incomplete else Ok(SimpleError(line.value), |line.value| + 3);
  }

  method ParseInteger(str: string, start: nat) returns (r: Outcome<RespValue>)
    requires start < |str| && str[start] == ':'
    ensures r == Parse(str[start..])
  {
    var line := Line(str, start);
    if line.None? {
      return Incomplete;
    }
    match ParseLongLong(line.value)
    case NotANumber => r := Invalid;
    case TooBig => r := Incomplete;
    case Number(n) => r := Ok(Integer(n), |line.value| + 3);
  }

  method ParseBulkString(str: string, start: nat) returns (r: Outcome<RespValue>)
    requires start < |str| && str[start] == '$'
    ensures r == Parse(str[start..])
  {
    hide Parse, ParseLongLong, ParsePayload;
    var line := Line(str, start);
    if line.None? {
      return Incomplete;
    }
    match ParseLongLong(line.value)
    case NotANumber => r := Invalid;
    case TooBig => r := Incomplete;
    case Number(n) =>
      var pos := start + |line.value| + 3;
      var payload := Payload(str, pos, n);
      r := Advance(payload, pos - start);
  }

  /** The part of `ParseBulkString` after its first line, from position `pos` on. */
  method Payload(str: string, pos: nat, n: int) returns (r: Outcome<RespValue>)
    requires pos <= |str|
    ensures r == ParsePayload(n, str[pos..])
  {
    if n == -1 {
      r := Ok(BulkString(None), 0);
    } else if n <= -2 {
      r := Invalid;
    } else if pos + n + 2 > |str| {
      r := Incomplete;
    } else if str[pos + n] != '\r' || str[pos + n + 1] != '\n' {
      r := Incomplete;
    } else {
      r := Ok(BulkString(Some(str[pos..pos + n])), n + 2);
      assert str[pos..][..n] == str[pos..pos + n];
    }
  }

  /** What is left to parse, put behind what has been. */
  function After(done: seq<RespValue>, used: nat, rest: Outcome<seq<RespValue>>)
    : Outcome<seq<RespValue>>
  {
    if rest.Ok? then Ok(done + rest.value, used + rest.used) else rest
  }

  lemma AfterCons(str: string, start: nat, pos: nat, v: RespValue, used: nat,
                  done: seq<RespValue>, count: nat)
    requires start <= pos < |str| && |done| < count && Parse(str[pos..]) == Ok(v, used)
    ensures After(done, pos - start, ParseElements(str[pos..], count - |done|))
         == After(done + [v], pos + used - start, ParseElements(str[pos + used..], count - |done| - 1))
  {
    hide Parse, ParseElements;
    ElementsUnfold(str[pos..], count - |done|);
    assert str[pos..][used..] == str[pos + used..];
    var rest := ParseElements(str[pos + used..], count - |done| - 1);
    if rest.Ok? {
      assert done + ([v] + rest.value) == (done + [v]) + rest.value;
    }
  }

  method ParseArray(str: string, start: nat) returns (r: Outcome<RespValue>)
    requires start < |str| && str[start] == '*'
    ensures r == Parse(str[start..])
    decreases |str| - start, 0
  {
    hide Parse, ParseElements, ParseLongLong;
    var line := Line(str, start);
    if line.None? {
      return Incomplete;
    }
    match ParseLongLong(line.value)
    case NotANumber => r := Invalid;
    case TooBig => r := Incomplete;
    case Number(n) =>
      if n < 0 {
        return Invalid;
      }
      var pos := start + |line.value| + 3;
      var output := ParseElementLoop(str, pos, n);
      match output
      case Invalid => r := Invalid;
      case Incomplete => r := Incomplete;
      case Ok(vs, used) => r := Ok(Array(vs), pos + used - start);
  }

  method ParseElementLoop(str: string, start: nat, count: nat) returns (r: Outcome<seq<RespValue>>)
    requires start <= |str|
    ensures r == ParseElements(str[start..], count)
    decreases |str| - start, 2
  {
    hide Parse, ParseElements;
    var pos := start;
    var output: seq<RespValue> := [];
    ghost var all := ParseElements(str[start..], count);
    assert all.Ok? ==> output + all.value == all.value;
    while |output| < count
      invariant |output| <= count && start <= pos <= |str|
      invariant all == After(output, pos - start, ParseElements(str[pos..], count - |output|))
    {
      ElementsUnfold(str[pos..], count - |output|);
      if pos >= |str| {
        return Incomplete;
      }
      var element := ParseVariant(str, pos);
      match element
      case Invalid => return Invalid;
      case Incomplete => return Incomplete;
      case Ok(v, used) =>
        AfterCons(str, start, pos, v, used, output, count);
        output := output + [v];
        pos := pos + used;
    }
    NoElements(str[pos..]);
    assert output + [] == output;
    r := Ok(output, pos - start);
  }

  method Print(v: RespValue) returns (s: string)
    ensures s == Serialize(v)
    decreases v
  {
    match v
    case SimpleString(text) => s := "+" + text + "\r\n";
    case SimpleError(message) => s := "-" + message + "\r\n";
    case Integer(n) => s := ":" + ToString(n) + "\r\n";
    case BulkString(None) => s := "$-1\r\n";
    case BulkString(Some(p)) => s := "$" + ToString(|p|) + "\r\n" + p + "\r\n";
    case Array(vs) =>
      s := "*" + ToString(|vs|) + "\r\n";
      ghost var header := s;
      for i := 0 to |vs|
        invariant s == header + SerializeAll(vs[..i])
      {
        var element := Print(vs[i]);
        SerializeAllAppend(vs[..i], vs[i]);
        assert vs[..i + 1] == vs[..i] + [vs[i]];
        s := s + element;
      }
      assert vs[..|vs|] == vs;
  }

  lemma {:induction false} SerializeAllAppend(vs: seq<RespValue>, v: RespValue)
    ensures SerializeAll(vs + [v]) == SerializeAll(vs) + Serialize(v)
  {
    if vs == [] {
      assert SerializeAll([v]) == Serialize(v) + SerializeAll([]);
    } else {
      assert (vs + [v])[1..] == vs[1..] + [v];
      SerializeAllAppend(vs[1..], v);
    }
  }
}
