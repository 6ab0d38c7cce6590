/** JSON strings, integers and white space, as the snapshot writer emits them and
    the snapshot reader takes them apart.

    The reference functions work on the text still to read and return what is left
    of it; the methods move a position through the whole text, as the code does. */
module Serialise {
  import opened Text

  const BACKSPACE: char := 8 as char
  const FORM_FEED: char := 12 as char

  // ---- Writing ----

  function HexDigit(n: nat): char
    requires n < 16
  {
    "0123456789abcdef"[n]
  }

  function Escape(c: char): (s: string)
    ensures s != "" && s[0] != '"'
  {
    if c == '"' then "\\\""
    else if c == '\\' then "\\\\"
    else if c == BACKSPACE then "\\b"
    else if c == FORM_FEED then "\\f"
    else if c == '\n' then "\\n"
    else if c == '\r' then "\\r"
    else if c == '\t' then "\\t"
    else if c < ' ' then "\\u00" + [HexDigit(c as int / 16), HexDigit(c as int % 16)]
    else [c]
  }

  function EscapeAll(v: string): string {
    if v == "" then "" else Escape(v[0]) + EscapeAll(v[1..])
  }

  function JsonString(v: string): string {
    "\"" + EscapeAll(v) + "\""
  }

  // ---- Reading ----

  predicate IsWhitespace(c: char) {
    c == ' ' || c == '\t' || c == '\n' || c == '\r'
  }

  predicate AllWhitespace(s: string) {
    forall i | 0 <= i < |s| :: IsWhitespace(s[i])
  }

  function Skip(s: string): (r: string)
    ensures |r| <= |s| && (r != "" ==> !IsWhitespace(r[0]))
  {
    if s != "" && IsWhitespace(s[0]) then Skip(s[1..]) else s
  }

  function HexValue(c: char): (n: int)
    ensures -1 <= n < 16
  {
    if '0' <= c <= '9' then (c - '0') as int
    else if 'a' <= c <= 'f' then (c - 'a') as int + 10
    else if 'A' <= c <= 'F' then (c - 'A') as int + 10
    else -1
  }

  /** The byte a `\u` escape's four digits stand for; only `\u00XX` is supported. */
  function HexByte(d: string): (r: Option<char>)
    requires |d| == 4
  {
    var a, b, c, e := HexValue(d[0]), HexValue(d[1]), HexValue(d[2]), HexValue(d[3]);
    if a < 0 || b < 0 || c < 0 || e < 0 then None
    else
      var code := ((a * 16 + b) * 16 + c) * 16 + e;
      if code > 0xff then None else Some(code as char)
  }

  /** One character of a string literal, unescaped, and the text after it. */
  function ReadChar(s: string): (r: Option<(char, string)>)
    requires s != ""
    ensures r.Some? ==> |r.value.1| < |s|
  {
    if s[0] != '\\' then Some((s[0], s[1..]))
    else if |s| < 2 then None
    else
      var e, rest := s[1], s[2..];
      if e == '"' || e == '\\' || e == '/' then Some((e, rest))
      else if e == 'b' then Some((BACKSPACE, rest))
      else if e == 'f' then Some((FORM_FEED, rest))
      else if e == 'n' then Some(('\n', rest))
      else if e == 'r' then Some(('\r', rest))
      else if e == 't' then Some(('\t', rest))
      else if e == 'u' && |rest| >= 4 && HexByte(rest[..4]).Some? then
        Some((HexByte(rest[..4]).value, rest[4..]))
      else None
  }

  /** The characters up to the closing quote, unescaped. */
  function ReadChars(s: string): (r: Option<(string, string)>)
    ensures r.Some? ==> |r.value.1| < |s|
    decreases |s|
  {
    if s == "" then None
    else if s[0] == '"' then Some(("", s[1..]))
    else
      match ReadChar(s)
      case None => None
      case Some((c, rest)) =>
        match ReadChars(rest)
        case None => None
        case Some((more, rest')) => Some(([c] + more, rest'))
  }

  function ReadString(s: string): (r: Option<(string, string)>)
    ensures r.Some? ==> |r.value.1| < |s|
  {
    if s == "" || s[0] != '"' then None else ReadChars(s[1..])
  }

  function ReadInteger(s: string): (r: Option<(int, string)>)
    ensures r.Some? ==> |r.value.1| < |s| && IsInt64(r.value.0)
  {
    match FromChars(s)
    case None => None
    case Some((n, used)) => Some((n, s[used..]))
  }

  // ---- Reading undoes writing ----

  lemma SkipGap(gap: string, rest: string)
    requires AllWhitespace(gap) && (rest == "" || !IsWhitespace(rest[0]))
    ensures Skip(gap + rest) == rest
  {
    if gap == "" {
      assert gap + rest == rest;
    } else {
      assert (gap + rest)[1..] == gap[1..] + rest;
      SkipGap(gap[1..], rest);
    }
  }

  lemma HexDigitValue(n: nat)
    requires n < 16
    ensures HexValue(HexDigit(n)) == n
  {
  }

  lemma ReadEscaped(c: char, rest: string)
    ensures ReadChar(Escape(c) + rest) == Some((c, rest))
  {
    var s := Escape(c) + rest;
    if |Escape(c)| == 1 {
      assert s[1..] == rest;
    } else if |Escape(c)| == 2 {
      assert s[2..] == rest;
    } else {
      HexDigitValue(c as int / 16);
      HexDigitValue(c as int % 16);
      var d := ['0', '0', HexDigit(c as int / 16), HexDigit(c as int % 16)];
      assert s[2..] == d + rest;
      assert (d + rest)[..4] == d && (d + rest)[4..] == rest;
      assert HexByte(d) == Some(c);
    }
  }

  lemma {:induction false} ReadEscapedAll(v: string, rest: string)
    ensures ReadChars(EscapeAll(v) + "\"" + rest) == Some((v, rest))
  {
    hide Escape, ReadChar;
    if v == "" {
      assert EscapeAll(v) + "\"" + rest == "\"" + rest;
      assert ("\"" + rest)[1..] == rest;
    } else {
      var tail := EscapeAll(v[1..]) + "\"" + rest;
      assert EscapeAll(v) + "\"" + rest == Escape(v[0]) + tail;
      ReadEscaped(v[0], tail);
      ReadEscapedAll(v[1..], rest);
      assert (Escape(v[0]) + tail)[0] != '"';
      assert [v[0]] + v[1..] == v;
    }
  }

  /** Every byte string comes back from its literal, whatever follows it. */
  lemma StringRoundTrip(v: string, rest: string)
    ensures ReadString(JsonString(v) + rest) == Some((v, rest))
  {
    ReadEscapedAll(v, rest);
    assert (JsonString(v) + rest)[1..] == EscapeAll(v) + "\"" + rest;
  }

  lemma IntegerRoundTrip(n: int, rest: string)
    requires IsInt64(n) && (rest == "" || !IsDigit(rest[0]))
    ensures ReadInteger(ToString(n) + rest) == Some((n, rest))
  {
    FromCharsOfToString(n, rest);
    assert (ToString(n) + rest)[|ToString(n)|..] == rest;
  }

  // ---- As the code runs ----

  method AppendJsonString(value: string, out: string) returns (r: string)
    ensures r == out + JsonString(value)
  {
    hide Escape;
    r := out + "\"";
    assert value[..0] == "";
    for i := 0 to |value|
      invariant r == out + "\"" + EscapeAll(value[..i])
    {
      EscapeAllAppend(value[..i], value[i]);
      assert value[..i + 1] == value[..i] + [value[i]];
      assert out + "\"" + (EscapeAll(value[..i]) + Escape(value[i])) == r + Escape(value[i]);
      r := r + Escape(value[i]);
    }
    assert value[..|value|] == value;
    assert r + "\"" == out + ("\"" + EscapeAll(value) + "\"");
    r := r + "\"";
  }

  lemma {:induction false} EscapeAllAppend(v: string, c: char)
    ensures EscapeAll(v + [c]) == EscapeAll(v) + Escape(c)
  {
    if v == "" {
      assert EscapeAll([c]) == Escape(c) + EscapeAll("");
    } else {
      hide Escape;
      assert (v + [c])[1..] == v[1..] + [c];
      EscapeAllAppend(v[1..], c);
    }
  }

  method SkipWhitespace(data: string, start: nat) returns (pos: nat)
    requires start <= |data|
    ensures start <= pos <= |data| && data[pos..] == Skip(data[start..])
  {
    pos := start;
    while pos < |data| && IsWhitespace(data[pos])
      invariant start <= pos <= |data| && Skip(data[pos..]) == Skip(data[start..])
    {
      assert data[pos..][1..] == data[pos + 1..];
      pos := pos + 1;
    }
  }

  /** The value and the text left, as a position into `data`; `None` is a thrown
      `std::invalid_argument`. */
  ghost predicate Matches<T(!new)>(r: Option<(T, nat)>, data: string, start: nat, spec: Option<(T, string)>) {
    if spec.None? then r.None?
    else r.Some? && start <= r.value.1 <= |data| && r.value.0 == spec.value.0 && data[r.value.1..] == spec.value.1
  }

  method ParseJsonString(data: string, start: nat) returns (r: Option<(string, nat)>)
    requires start <= |data|
    ensures Matches(r, data, start, ReadString(data[start..]))
  {
    if start >= |data| || data[start] != '"' {
      return None;
    }
    var pos := start + 1;
    var out := "";
    ghost var all := ReadChars(data[start + 1..]);
    assert data[start..][1..] == data[start + 1..];
    assert all.Some? ==> "" + all.value.0 == all.value.0;
    while pos < |data|
      invariant start < pos <= |data|
      invariant all == Prepend(out, ReadChars(data[pos..]))
      decreases |data| - pos
    {
      var s := data[pos..];
      if data[pos] == '"' {
        assert s[1..] == data[pos + 1..] && out + "" == out;
        return Some((out, pos + 1));
      }
      var next := ParseChar(data, pos);
      if next.None? {
        return None;
      }
      PrependCons(out, next.value.0, ReadChars(data[next.value.1..]));
      out, pos := out + [next.value.0], next.value.1;
    }
    r := None;
  }

  function Prepend(out: string, r: Option<(string, string)>): Option<(string, string)> {
    if r.Some? then Some((out + r.value.0, r.value.1)) else None
  }

  lemma PrependCons(out: string, c: char, r: Option<(string, string)>)
    ensures Prepend(out, Prepend([c], r)) == Prepend(out + [c], r)
  {
    if r.Some? {
      assert out + ([c] + r.value.0) == (out + [c]) + r.value.0;
    }
  }

  method ParseChar(data: string, start: nat) returns (r: Option<(char, nat)>)
    requires start < |data| && data[start] != '"'
    ensures Matches(r, data, start, ReadChar(data[start..]))
    ensures r.Some? ==> start < r.value.1
    ensures ReadChars(data[start..]) ==
      if r.None? then None else Prepend([r.value.0], ReadChars(data[r.value.1..]))
  {
    var pos := start + 1;
    assert data[start..][1..] == data[pos..];
    if data[start] != '\\' {
      return Some((data[start], pos));
    }
    if pos >= |data| {
      return None;
    }
    var escape := data[pos];
    pos := pos + 1;
    assert data[start..][2..] == data[pos..];
    match escape
    case '"' => r := Some(('"', pos));
    case '\\' => r := Some(('\\', pos));
    case '/' => r := Some(('/', pos));
    case 'b' => r := Some((BACKSPACE, pos));
    case 'f' => r := Some((FORM_FEED, pos));
    case 'n' => r := Some(('\n', pos));
    case 'r' => r := Some(('\r', pos));
    case 't' => r := Some(('\t', pos));
    case 'u' =>
      if pos + 4 > |data| {
        return None;
      }
      var byte := ParseHex(data, pos);
      assert data[pos..][..4] == data[pos..pos + 4] && data[pos..][4..] == data[pos + 4..];
      r := if byte.None? then None else Some((byte.value, pos + 4));
    case _ => r := None;
  }

  method ParseHex(data: string, start: nat) returns (r: Option<char>)
    requires start + 4 <= |data|
    ensures r == HexByte(data[start..start + 4])
  {
    hide HexValue;
    var d := data[start..start + 4];
    var code := 0;
    for i := 0 to 4
      invariant forall j | 0 <= j < i :: HexValue(d[j]) >= 0
      invariant code == HexPrefix(d, i)
    {
      var nibble := HexValue(d[i]);
      if nibble < 0 {
        return None;
      }
      code := code * 16 + nibble;
    }
    assert HexPrefix(d, 2) == HexValue(d[0]) * 16 + HexValue(d[1]);
    assert HexPrefix(d, 4) == HexPrefix(d, 3) * 16 + HexValue(d[3]);
    r := if code > 0xff then None else Some(code as char);
  }

  function HexPrefix(d: string, n: nat): (code: nat)
    requires n <= |d|
    requires forall j | 0 <= j < n :: HexValue(d[j]) >= 0
  {
    if n == 0 then 0 else HexPrefix(d, n - 1) * 16 + HexValue(d[n - 1])
  }

  method ParseJsonInteger(data: string, start: nat) returns (r: Option<(int, nat)>)
    requires start <= |data|
    ensures Matches(r, data, start, ReadInteger(data[start..]))
  {
    match FromChars(data[start..])
    case None => r := None;
    case Some((n, used)) =>
      r := Some((n, start + used));
      assert data[start..][used..] == data[start + used..];
  }
}
