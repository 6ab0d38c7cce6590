/** Which bytes are which value, and which are none. The texts of a value and the two ways a
    text can fail are described without the parser, as relations on whole texts; the
    parser's three outcomes are then exactly these. */
module RespGrammar {
  import opened Text
  import opened Resp

  // ---- The texts of a value ----

  /** A line that `std::stoll` reads as `n`. White space before the number, a plus sign, leading
      zeros and anything after the digits are let through. */
  ghost predicate NumberLine(line: string, n: int) {
    !HasCrlf(line) && Numeral(line, n) && IsInt64(n)
  }

  ghost predicate IsText(v: RespValue, s: string)
    decreases v
  {
    match v
    case SimpleString(text) => !HasCrlf(text) && s == "+" + text + "\r\n"
    case SimpleError(message) => !HasCrlf(message) && s == "-" + message + "\r\n"
    case Integer(n) => exists line :: NumberLine(line, n) && s == ":" + line + "\r\n"
    case BulkString(None) => exists line :: NumberLine(line, -1) && s == "$" + line + "\r\n"
    case BulkString(Some(p)) =>
      exists line :: NumberLine(line, |p|) && s == "$" + line + "\r\n" + (p + "\r\n")
    case Array(vs) =>
      exists line, body :: NumberLine(line, |vs|) && s == "*" + line + "\r\n" + body && AreTexts(vs, body)
  }

  /** Texts of the values, one after another. */
  ghost predicate AreTexts(vs: seq<RespValue>, s: string)
    decreases vs
  {
    if vs == [] then s == ""
    else exists k | 0 <= k <= |s| :: IsText(vs[0], s[..k]) && AreTexts(vs[1..], s[k..])
  }

  // ---- Texts of no value ----

  /** No value can be read at the front of `s`: because it is malformed, whatever may follow,
      or, if not `malformed`, because it is not all there or its number does not fit. */
  ghost predicate Stops(s: string, malformed: bool)
    decreases |s|, 0
  {
    if s == "" then !malformed
    else if s[0] != '+' && s[0] != '-' && s[0] != ':' && s[0] != '$' && s[0] != '*' then malformed
    else if !HasCrlf(s[1..]) then !malformed
    else exists line, rest ::
           !HasCrlf(line) && s == [s[0]] + line + "\r\n" + rest && StopsAfter(s[0], line, rest, malformed)
  }

  /** The first line is whole, announces a number or a length, and nothing comes of it. */
  ghost predicate StopsAfter(kind: char, line: string, rest: string, malformed: bool)
    decreases |rest|, 3
  {
    && (kind == ':' || kind == '$' || kind == '*')
    && ((malformed && forall n :: !Numeral(line, n)) ||
        exists n :: Numeral(line, n) && StopsAt(kind, n, rest, malformed))
  }

  ghost predicate StopsAt(kind: char, n: int, rest: string, malformed: bool)
    decreases |rest|, 2
  {
    if !IsInt64(n) then !malformed
    else if kind == '$' then if malformed then n <= -2 else 0 <= n && !StartsWithPayload(n, rest)
    else if kind == '*' then if n < 0 then malformed else StopsAmong(n, rest, malformed)
    else false
  }

  ghost predicate StartsWithPayload(n: nat, rest: string) {
    exists p: string :: |p| == n && p + "\r\n" <= rest
  }

  /** Fewer than `count` values are there, and after them nothing can be read. */
  ghost predicate StopsAmong(count: nat, rest: string, malformed: bool)
    decreases |rest|, 1
  {
    exists vs: seq<RespValue>, k | 0 <= k <= |rest| ::
      |vs| < count && AreTexts(vs, rest[..k]) && Stops(rest[k..], malformed)
  }

  // ---- The parser ----

  /** The three outcomes of parsing, each exactly. */
  lemma ParseExactly(s: string)
    ensures forall v, n: nat :: Parse(s) == Ok(v, n) <==> n <= |s| && IsText(v, s[..n])
    ensures Parse(s).Invalid? <==> Stops(s, true)
    ensures Parse(s).Incomplete? <==> Stops(s, false)
  {
    hide Parse, IsText, Stops;
    forall v, n: nat | n <= |s| && IsText(v, s[..n]) ensures Parse(s) == Ok(v, n) {
      TextParses(v, s[..n], s[n..]);
      assert s[..n] + s[n..] == s;
    }
    if Parse(s).Ok? {
      ParsedText(s);
    } else {
      StopIsReal(s);
    }
    if Stops(s, true) {
      StopStops(s, true);
    }
    if Stops(s, false) {
      StopStops(s, false);
    }
  }

  lemma NumberLineParses(line: string, n: int)
    ensures NumberLine(line, n) <==> !HasCrlf(line) && ParseLongLong(line) == Number(n)
  {
    hide HasCrlf, ParseLongLong, Numeral;
    StollExactly(line);
  }

  // ---- What parses is a text ----

  lemma {:induction false} ParsedText(s: string)
    requires Parse(s).Ok?
    ensures IsText(Parse(s).value, s[..Parse(s).used])
    decreases |s|, 1
  {
    hide Parse, ParseBody, HasCrlf, IsText;
    var line, rest := LineOf(s);
    var body := ParseBody(s[0], line, rest);
    assert s[..Parse(s).used] == [s[0]] + line + "\r\n" + rest[..body.used];
    ParsedBody(s[0], line, rest);
  }

  lemma {:induction false} ParsedBody(kind: char, line: string, rest: string)
    requires kind in KINDS && !HasCrlf(line) && ParseBody(kind, line, rest).Ok?
    ensures var r := ParseBody(kind, line, rest);
      IsText(r.value, [kind] + line + "\r\n" + rest[..r.used])
    decreases |rest|, 3
  {
    hide HasCrlf, ParseLongLong, NumberLine;
    var head := [kind] + line + "\r\n";
    assert head + rest[..0] == head;
    if kind != '+' && kind != '-' {
      var n := ParseLongLong(line).n;
      NumberLineParses(line, n);
      if kind == '*' {
        ParsedElements(rest, n);
        var used := ParseElements(rest, n).used;
        assert NumberLine(line, n) && head + rest[..used] == "*" + line + "\r\n" + rest[..used];
      } else if kind == '$' && n >= 0 {
        assert rest[..n + 2] == rest[..n] + "\r\n";
      }
    }
  }

  lemma {:induction false} ParsedElements(s: string, count: nat)
    requires ParseElements(s, count).Ok?
    ensures AreTexts(ParseElements(s, count).value, s[..ParseElements(s, count).used])
    decreases |s|, 2, count
  {
    hide Parse, ParseElements, IsText, AreTexts;
    if count == 0 {
      NoElements(s);
      NoTexts();
    } else {
      var v, n, vs, m := ElementsUncons(s, count);
      ParsedText(s);
      ParsedElements(s[n..], count - 1);
      assert s[..n + m][..n] == s[..n] && s[..n + m][n..] == s[n..][..m];
      ConsTexts(v, vs, s[..n + m], n);
    }
  }

  lemma NoTexts()
    ensures AreTexts([], "")
  {
  }

  lemma ConsTexts(v: RespValue, vs: seq<RespValue>, s: string, k: nat)
    requires k <= |s| && IsText(v, s[..k]) && AreTexts(vs, s[k..])
    ensures AreTexts([v] + vs, s)
  {
    hide IsText;
    assert ([v] + vs)[1..] == vs;
  }

  // ---- A text parses, whatever follows ----

  lemma {:induction false} TextParses(v: RespValue, s: string, rest: string)
    requires IsText(v, s)
    ensures Parse(s + rest) == Ok(v, |s|)
    decreases v
  {
    hide Parse, HasCrlf, NumberLine, ParseLongLong;
    match v
    case SimpleString(text) => LineParses('+', text, "", rest);
    case SimpleError(message) => LineParses('-', message, "", rest);
    case Integer(n) =>
      var line :| NumberLine(line, n) && s == ":" + line + "\r\n";
      NumberLineParses(line, n);
      LineParses(':', line, "", rest);
    case BulkString(None) =>
      var line :| NumberLine(line, -1) && s == "$" + line + "\r\n";
      NumberLineParses(line, -1);
      LineParses('$', line, "", rest);
    case BulkString(Some(p)) => BulkTextParses(p, s, rest);
    case Array(vs) =>
      var line, body :| NumberLine(line, |vs|) && s == "*" + line + "\r\n" + body && AreTexts(vs, body);
      NumberLineParses(line, |vs|);
      LineParses('*', line, body, rest);
      hide AreTexts;
      TextsParse(vs, body, rest);
  }

  lemma BulkTextParses(p: string, s: string, rest: string)
    requires IsText(BulkString(Some(p)), s)
    ensures Parse(s + rest) == Ok(BulkString(Some(p)), |s|)
  {
    hide Parse, HasCrlf, NumberLine, ParseLongLong, ParsePayload;
    var line :| NumberLine(line, |p|) && s == "$" + line + "\r\n" + (p + "\r\n");
    NumberLineParses(line, |p|);
    LineParses('$', line, p + "\r\n", rest);
    PayloadParses(p, rest);
  }

  lemma {:induction false} TextsParse(vs: seq<RespValue>, s: string, rest: string)
    requires AreTexts(vs, s)
    ensures ParseElements(s + rest, |vs|) == Ok(vs, |s|)
    decreases vs
  {
    hide Parse, ParseElements, IsText;
    if vs == [] {
      NoElements(s + rest);
    } else {
      var k :| 0 <= k <= |s| && IsText(vs[0], s[..k]) && AreTexts(vs[1..], s[k..]);
      hide AreTexts;
      TextParses(vs[0], s[..k], s[k..] + rest);
      TextsParse(vs[1..], s[k..], rest);
      assert s[..k] + (s[k..] + rest) == s + rest;
      assert (s + rest)[k..] == s[k..] + rest;
      ElementsCons(s + rest, vs[0], k, s[k..] + rest, vs[1..], |s| - k);
      assert vs == [vs[0]] + vs[1..];
    }
  }

  // ---- Where the parser stops, there is no text ----

  lemma {:induction false} StopIsReal(s: string)
    requires !Parse(s).Ok?
    ensures Stops(s, Parse(s).Invalid?)
    decreases |s|, 1
  {
    hide ParseBody, HasCrlf, FindCrlf, StopsAfter;
    if s != "" && s[0] in KINDS {
      FindCrlfExactly(s[1..]);
      if HasCrlf(s[1..]) {
        var i := FindCrlf(s[1..]).value;
        var line, rest := s[1..][..i], s[i + 3..];
        FindCrlfLineClean(s[1..]);
        assert s == [s[0]] + s[1..] && s == [s[0]] + line + "\r\n" + rest;
        StopAfterIsReal(s[0], line, rest);
      }
    }
  }

  lemma FindCrlfExactly(s: string)
    ensures FindCrlf(s).Some? <==> HasCrlf(s)
  {
    if i :| CrlfAt(s, i) {
      FindCrlfIsFirst(s, i);
    }
  }

  lemma {:induction false} StopAfterIsReal(kind: char, line: string, rest: string)
    requires kind in KINDS && !ParseBody(kind, line, rest).Ok?
    ensures StopsAfter(kind, line, rest, ParseBody(kind, line, rest).Invalid?)
    decreases |rest|, 3
  {
    hide ParseLongLong, Numeral, StopsAmong;
    StollExactly(line);
    var bad := ParseBody(kind, line, rest).Invalid?;
    if ParseLongLong(line).Number? {
      var n := ParseLongLong(line).n;
      assert Numeral(line, n);
      if kind == '*' && n >= 0 {
        StopAmongIsReal(rest, n);
      } else if kind == '$' && n >= 0 {
        PayloadExactly(n, rest);
      }
      assert StopsAt(kind, n, rest, bad);
    } else if ParseLongLong(line).TooBig? {
      var n :| Numeral(line, n) && !IsInt64(n);
      assert StopsAt(kind, n, rest, bad);
    }
  }

  lemma PayloadExactly(n: nat, rest: string)
    ensures StartsWithPayload(n, rest) <==> ParsePayload(n, rest).Ok?
  {
    if ParsePayload(n, rest).Ok? {
      assert rest[..n] + "\r\n" == rest[..n + 2];
      assert |rest[..n]| == n && rest[..n] + "\r\n" <= rest;
    }
    if StartsWithPayload(n, rest) {
      var p: string :| |p| == n && p + "\r\n" <= rest;
      assert (p + "\r\n")[n] == rest[n] && (p + "\r\n")[n + 1] == rest[n + 1];
    }
  }

  lemma {:induction false} StopAmongIsReal(s: string, count: nat)
    requires !ParseElements(s, count).Ok?
    ensures StopsAmong(count, s, ParseElements(s, count).Invalid?)
    decreases |s|, 2, count
  {
    hide Parse, ParseElements, IsText, AreTexts, Stops;
    var bad := ParseElements(s, count).Invalid?;
    if count == 0 {
      NoElements(s);
    } else {
      ElementsUnfold(s, count);
      if !Parse(s).Ok? {
        StopIsReal(s);
        NoTexts();
        assert s[..0] == "" && s[0..] == s;
        AmongWith(count, s, [], 0, bad);
      } else {
        var v, n := Parse(s).value, Parse(s).used;
        ParsedText(s);
        StopAmongIsReal(s[n..], count - 1);
        AmongOneMore(count, s, v, n, bad);
      }
    }
  }

  lemma AmongWith(count: nat, s: string, vs: seq<RespValue>, k: nat, malformed: bool)
    requires k <= |s| && |vs| < count && AreTexts(vs, s[..k]) && Stops(s[k..], malformed)
    ensures StopsAmong(count, s, malformed)
  {
    hide AreTexts, Stops;
  }

  lemma AmongOneMore(count: nat, s: string, v: RespValue, n: nat, malformed: bool)
    requires 0 < count && n <= |s| && IsText(v, s[..n]) && StopsAmong(count - 1, s[n..], malformed)
    ensures StopsAmong(count, s, malformed)
  {
    hide IsText, AreTexts, Stops;
    var tail := s[n..];
    var vs: seq<RespValue>, k :| 0 <= k <= |tail| && |vs| < count - 1 && AreTexts(vs, tail[..k]) &&
                                 Stops(tail[k..], malformed);
    hide StopsAmong;
    assert s[..n + k][..n] == s[..n] && s[..n + k][n..] == tail[..k] && s[n + k..] == tail[k..];
    ConsTexts(v, vs, s[..n + k], n);
    AmongWith(count, s, [v] + vs, n + k, malformed);
  }

  // ---- Where there is no text, the parser stops ----

  function Stopped<T>(malformed: bool): Outcome<T> {
    if malformed then Invalid else Incomplete
  }

  lemma {:induction false} StopStops(s: string, malformed: bool)
    requires Stops(s, malformed)
    ensures Parse(s) == Stopped(malformed)
    decreases |s|, 1
  {
    hide ParseBody, HasCrlf, FindCrlf, StopsAfter;
    if s != "" && s[0] in KINDS {
      FindCrlfExactly(s[1..]);
      if HasCrlf(s[1..]) {
        var line, rest :| !HasCrlf(line) && s == [s[0]] + line + "\r\n" + rest &&
                          StopsAfter(s[0], line, rest, malformed);
        hide Parse, Stops;
        LineParses(s[0], line, "", rest);
        StopAfterStops(s[0], line, rest, malformed);
      }
    }
  }

  lemma {:induction false} StopAfterStops(kind: char, line: string, rest: string, malformed: bool)
    requires kind in KINDS && StopsAfter(kind, line, rest, malformed)
    ensures ParseBody(kind, line, rest) == Stopped(malformed)
    decreases |rest|, 3
  {
    hide ParseLongLong, Numeral, StopsAmong;
    StollExactly(line);
    if exists n :: Numeral(line, n) && StopsAt(kind, n, rest, malformed) {
      var n :| Numeral(line, n) && StopsAt(kind, n, rest, malformed);
      if IsInt64(n) && n >= 0 {
        if kind == '*' {
          StopAmongStops(rest, n, malformed);
        } else if kind == '$' {
          PayloadExactly(n, rest);
        }
      }
    }
  }

  lemma {:induction false} StopAmongStops(s: string, count: nat, malformed: bool)
    requires StopsAmong(count, s, malformed)
    ensures ParseElements(s, count) == Stopped(malformed)
    decreases |s|, 2
  {
    hide Parse, ParseElements, AreTexts, Stops;
    var vs: seq<RespValue>, k :| 0 <= k <= |s| && |vs| < count && AreTexts(vs, s[..k]) && Stops(s[k..], malformed);
    StopStops(s[k..], malformed);
    assert s[..k] + s[k..] == s;
    StopsBehind(vs, s[..k], s[k..], count, malformed);
  }

  /** Elements that parse, up to one that does not. */
  lemma {:induction false} StopsBehind(vs: seq<RespValue>, t: string, rest: string, count: nat, malformed: bool)
    requires |vs| < count && AreTexts(vs, t) && Parse(rest) == Stopped(malformed)
    ensures ParseElements(t + rest, count) == Stopped(malformed)
    decreases vs
  {
    hide Parse, ParseElements, IsText;
    ElementsUnfold(t + rest, count);
    if vs == [] {
      assert t + rest == rest;
    } else {
      var k :| 0 <= k <= |t| && IsText(vs[0], t[..k]) && AreTexts(vs[1..], t[k..]);
      hide AreTexts;
      TextParses(vs[0], t[..k], t[k..] + rest);
      assert t[..k] + (t[k..] + rest) == t + rest && (t + rest)[k..] == t[k..] + rest;
      StopsBehind(vs[1..], t[k..], rest, count - 1, malformed);
    }
  }

  // ---- The printer writes the shortest text ----

  /** `a` is the one shortest of all, as far as `b` goes. */
  predicate ShorterUnlessSame(a: string, b: string) {
    |a| <= |b| && (|a| == |b| ==> a == b)
  }

  lemma {:induction false} ShortestDigits(d: string)
    requires d != "" && AllDigits(d)
    ensures ShorterUnlessSame(NatToString(Value(d)), d)
  {
    var rest, c := d[..|d| - 1], d[|d| - 1];
    assert d == rest + [c] && AllDigits(rest);
    var n := Value(d);
    assert n == 10 * Value(rest) + DigitValue(c) && DigitChar(DigitValue(c)) == c;
    if rest == "" {
      assert NatToString(n) == [c];
    } else if n >= 10 {
      assert n / 10 == Value(rest) && n % 10 == DigitValue(c);
      ShortestDigits(rest);
      assert NatToString(n) == NatToString(Value(rest)) + [c];
    }
  }

  lemma ShortestLine(line: string, n: int)
    requires NumberLine(line, n)
    ensures ShorterUnlessSame(ToString(n), line)
  {
    hide NatToString, Value;
    var spaces, sign, digits, tail :| NumeralParts(line, spaces, sign, digits, tail) &&
      n == (var magnitude: int := Value(digits); if sign == "-" then -magnitude else magnitude);
    ShortestDigits(digits);
    assert |line| == |spaces| + |sign| + |digits| + |tail|;
    if |line| == |sign| + |digits| {
      assert line == sign + digits;
    }
  }

  /** Of all texts of a value, however loosely written, the printed one is the shortest, and
      the only one of that length. */
  lemma {:induction false} PrintedIsShortest(v: RespValue, s: string)
    requires IsText(v, s)
    ensures ShorterUnlessSame(Serialize(v), s)
    decreases v
  {
    hide HasCrlf, NumberLine, ToString, ShorterUnlessSame;
    match v
    case SimpleString(text) => SameIsShortest(s);
    case SimpleError(message) => SameIsShortest(s);
    case Integer(n) =>
      var line :| NumberLine(line, n) && s == ":" + line + "\r\n";
      ShortestAround(line, n, ":", "", "");
      assert ":" + line + "\r\n" + "" == s && ":" + ToString(n) + "\r\n" + "" == Serialize(v);
    case BulkString(None) =>
      var line :| NumberLine(line, -1) && s == "$" + line + "\r\n";
      ShortestAround(line, -1, "$", "", "");
      MinusOne();
      assert "$" + line + "\r\n" + "" == s && "$" + ToString(-1) + "\r\n" + "" == Serialize(v);
    case BulkString(Some(p)) =>
      var line :| NumberLine(line, |p|) && s == "$" + line + "\r\n" + (p + "\r\n");
      ShortestAround(line, |p|, "$", p + "\r\n", p + "\r\n");
      assert "$" + ToString(|p|) + "\r\n" + (p + "\r\n") == Serialize(v);
    case Array(vs) =>
      var line, body :| NumberLine(line, |vs|) && s == "*" + line + "\r\n" + body && AreTexts(vs, body);
      hide AreTexts;
      PrintedAreShortest(vs, body);
      ShortestAround(line, |vs|, "*", SerializeAll(vs), body);
  }

  lemma MinusOne()
    ensures ToString(-1) == "-1"
  {
  }

  lemma SameIsShortest(s: string)
    ensures ShorterUnlessSame(s, s)
  {
  }

  lemma ShortestAround(line: string, n: int, kind: string, a: string, b: string)
    requires NumberLine(line, n) && (a == b || ShorterUnlessSame(a, b))
    ensures ShorterUnlessSame(kind + ToString(n) + "\r\n" + a, kind + line + "\r\n" + b)
  {
    hide NumberLine, ToString;
    ShortestLine(line, n);
  }

  lemma {:induction false} PrintedAreShortest(vs: seq<RespValue>, s: string)
    requires AreTexts(vs, s)
    ensures ShorterUnlessSame(SerializeAll(vs), s)
    decreases vs
  {
    hide IsText, Serialize, SerializeAll;
    SerializeAllUnfold(vs);
    if vs != [] {
      var k :| 0 <= k <= |s| && IsText(vs[0], s[..k]) && AreTexts(vs[1..], s[k..]);
      hide AreTexts;
      PrintedIsShortest(vs[0], s[..k]);
      PrintedAreShortest(vs[1..], s[k..]);
      assert s == s[..k] + s[k..];
    }
  }
}
