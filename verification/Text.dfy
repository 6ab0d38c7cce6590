/** The standard-library text routines the server leans on: `std::to_string`,
    `std::from_chars`, `std::stoll` and `std::string::find("\r\n")`.

    A C++ `char` holds one byte; here a byte is a Dafny `char` and nothing in the
    project needs it to be below 256. */
module Text {

  datatype Option<+T> = None | Some(value: T)

  const INT64_MIN: int := -0x8000_0000_0000_0000
  const INT64_MAX: int := 0x7fff_ffff_ffff_ffff

  predicate IsInt64(n: int) {
    INT64_MIN <= n <= INT64_MAX
  }

  // ---- Decimal digits ----

  predicate IsDigit(c: char) {
    '0' <= c <= '9'
  }

  predicate AllDigits(s: string) {
    forall i | 0 <= i < |s| :: IsDigit(s[i])
  }

  function DigitChar(n: nat): (c: char)
    requires n < 10
  {
    '0' + n as char
  }

  function DigitValue(c: char): (n: nat)
    requires IsDigit(c)
    ensures n < 10
  {
    (c - '0') as int
  }

  /** The number a digit string denotes; the empty string denotes 0. */
  function Value(s: string): nat
    requires AllDigits(s)
  {
    if s == [] then 0 else 10 * Value(s[..|s| - 1]) + DigitValue(s[|s| - 1])
  }

  /** How many leading characters of `s` are digits. */
  function DigitRun(s: string): (n: nat)
    ensures n <= |s| && AllDigits(s[..n])
    ensures n < |s| ==> !IsDigit(s[n])
  {
    if s == [] || !IsDigit(s[0]) then 0
    else
      var n := DigitRun(s[1..]);
      assert s[..n + 1] == [s[0]] + s[1..][..n];
      n + 1
  }

  lemma DigitRunOf(d: string, rest: string)
    requires AllDigits(d) && (rest == [] || !IsDigit(rest[0]))
    ensures DigitRun(d + rest) == |d|
  {
    if d != [] {
      assert (d + rest)[1..] == d[1..] + rest;
    } else {
      assert d + rest == rest;
    }
  }

  // ---- std::to_string ----

  function NatToString(n: nat): (s: string)
    ensures s != [] && AllDigits(s)
  {
    if n < 10 then [DigitChar(n)] else NatToString(n / 10) + [DigitChar(n % 10)]
  }

  function ToString(n: int): (s: string)
    ensures s != []
  {
    if n < 0 then "-" + NatToString(-n) else NatToString(n)
  }

  lemma {:induction false} ValueOfNatToString(n: nat)
    ensures Value(NatToString(n)) == n
  {
    if n >= 10 {
      ValueOfNatToString(n / 10);
      var s := NatToString(n);
      assert s[..|s| - 1] == NatToString(n / 10);
    } else {
      assert [DigitChar(n)][..0] == [];
    }
  }

  // ---- std::from_chars ----

  /** `std::from_chars(begin, end, int64)`: an optional '-', then the longest run
      of digits. `None` stands for both of its errors (no digits, out of range);
      otherwise the value and how many characters it took. */
  function FromChars(s: string): (r: Option<(int, nat)>)
    ensures r.Some? ==> 1 <= r.value.1 <= |s| && IsInt64(r.value.0)
  {
    var sign := if s != [] && s[0] == '-' then 1 else 0;
    var n := DigitRun(s[sign..]);
    if n == 0 then None
    else
      var magnitude: int := Value(s[sign..][..n]);
      var value: int := if sign == 1 then -magnitude else magnitude;
      if IsInt64(value) then Some((value, sign + n)) else None
  }

  /** Printing an int64 and reading it back, whatever non-digit follows. */
  lemma FromCharsOfToString(n: int, rest: string)
    requires IsInt64(n) && (rest == [] || !IsDigit(rest[0]))
    ensures FromChars(ToString(n) + rest) == Some((n, |ToString(n)|))
  {
    hide FromChars, NatToString, Value, DigitRun;
    var magnitude: nat := if n < 0 then -n else n;
    var digits := NatToString(magnitude);
    ValueOfNatToString(magnitude);
    if n < 0 {
      FromCharsMinus(digits, rest);
      assert "-" + digits + rest == ToString(n) + rest;
    } else {
      FromCharsPlain(digits, rest);
    }
  }

  lemma FromCharsPlain(digits: string, rest: string)
    requires digits != "" && AllDigits(digits) && (rest == [] || !IsDigit(rest[0])) && IsInt64(Value(digits))
    ensures FromChars(digits + rest) == Some((Value(digits), |digits|))
  {
    hide Value, DigitRun;
    var s := digits + rest;
    DigitRunOf(digits, rest);
    assert s[0] == digits[0] && IsDigit(s[0]);
    assert s[0..] == s && s[..|digits|] == digits;
  }

  lemma FromCharsMinus(digits: string, rest: string)
    requires digits != "" && AllDigits(digits) && (rest == [] || !IsDigit(rest[0]))
    requires var value: int := Value(digits); IsInt64(-value)
    ensures var value: int := Value(digits); FromChars("-" + digits + rest) == Some((-value, |digits| + 1))
  {
    hide Value, DigitRun, FromChars;
    var t := digits + rest;
    DigitRunOf(digits, rest);
    assert t[..|digits|] == digits;
    FromCharsNegated(t);
    assert "-" + digits + rest == "-" + t;
  }

  lemma FromCharsNegated(t: string)
    requires DigitRun(t) > 0
    requires var value: int := Value(t[..DigitRun(t)]); IsInt64(-value)
    ensures var value: int := Value(t[..DigitRun(t)]); FromChars("-" + t) == Some((-value, DigitRun(t) + 1))
  {
    hide Value, DigitRun;
    assert ("-" + t)[1..] == t;
  }

  /** The text is an int64 in decimal: digits, after a '-' if it is negative. Leading zeros
      are allowed, and so is "-0". */
  predicate IsIntegerText(t: string, n: int) {
    var digits := if "-" <= t then t[1..] else t;
    && digits != "" && AllDigits(digits) && IsInt64(n)
    && n == (var magnitude: int := Value(digits); if "-" <= t then -magnitude else magnitude)
  }

  /** `FromChars` takes exactly the integer text at the front, up to the first character
      that cannot go on with it. */
  lemma FromCharsExactly(s: string, n: int, used: nat)
    ensures FromChars(s) == Some((n, used)) <==>
      used <= |s| && IsIntegerText(s[..used], n) && (used == |s| || !IsDigit(s[used]))
  {
    hide Value, DigitRun;
    var sign := if s != [] && s[0] == '-' then 1 else 0;
    var body := s[sign..];
    if used <= |s| && sign <= used {
      assert s[..used][sign..] == body[..used - sign];
      if AllDigits(body[..used - sign]) && (used == |s| || !IsDigit(s[used])) {
        DigitRunOf(body[..used - sign], body[used - sign..]);
        assert body[..used - sign] + body[used - sign..] == body;
      }
    }
  }

  /** Adding digits on the right multiplies what was there by as many tens. */
  lemma {:induction false} ValueByPlaces(a: string, b: string)
    requires AllDigits(a) && AllDigits(b)
    ensures AllDigits(a + b) && Value(a + b) == Value(a) * Tens(|b|) + Value(b)
  {
    if b == [] {
      assert a + b == a;
    } else {
      var b' := b[..|b| - 1];
      ValueByPlaces(a, b');
      hide Tens;
      OneDigitMore(a + b', Value(a) * Tens(|b'|), b);
      assert a + b == (a + b') + [b[|b| - 1]];
      TensNext(|b'|);
      TenTimes(Value(a), Tens(|b'|));
    }
  }

  lemma OneDigitMore(s: string, shifted: nat, b: string)
    requires AllDigits(s) && b != [] && AllDigits(b)
    requires Value(s) == shifted + Value(b[..|b| - 1])
    ensures AllDigits(s + [b[|b| - 1]]) && Value(s + [b[|b| - 1]]) == 10 * shifted + Value(b)
  {
    hide Value, DigitValue;
    var rest, c := b[..|b| - 1], b[|b| - 1];
    assert b == rest + [c];
    ValueLast(s, c);
    ValueLast(rest, c);
  }

  lemma ValueLast(s: string, c: char)
    requires AllDigits(s) && IsDigit(c)
    ensures AllDigits(s + [c]) && Value(s + [c]) == 10 * Value(s) + DigitValue(c)
  {
    hide DigitValue;
    assert (s + [c])[..|s|] == s;
  }

  lemma TenTimes(a: nat, b: nat)
    ensures a * (10 * b) == 10 * (a * b)
  {
  }

  lemma TensNext(n: nat)
    ensures Tens(n + 1) == 10 * Tens(n)
  {
  }

  function Tens(n: nat): (r: nat)
    ensures r > 0
  {
    if n == 0 then 1 else 10 * Tens(n - 1)
  }

  // ---- std::stoll ----

  /** What `std::stoll` can do: return a value, throw `std::invalid_argument` (no
      digits), or throw `std::out_of_range` (does not fit in 64 bits). */
  datatype Stoll = Number(n: int) | NotANumber | TooBig

  /** `isspace` in the C locale. */
  predicate IsSpace(c: char) {
    c == ' ' || '\t' <= c <= '\r'
  }

  function SkipSpaces(s: string): (r: string)
  {
    if s != [] && IsSpace(s[0]) then SkipSpaces(s[1..]) else s
  }

  /** Leading white space, an optional sign, then the longest run of digits;
      whatever follows the digits is ignored. */
  function ParseLongLong(s: string): (r: Stoll)
    ensures r.Number? ==> IsInt64(r.n)
  {
    var body := SkipSpaces(s);
    var signed := body != [] && (body[0] == '-' || body[0] == '+');
    var digits := if signed then body[1..] else body;
    var n := DigitRun(digits);
    if n == 0 then NotANumber
    else
      var magnitude: int := Value(digits[..n]);
      var value: int := if signed && body[0] == '-' then -magnitude else magnitude;
      if IsInt64(value) then Number(value) else TooBig
  }

  lemma ParseLongLongOfToString(n: int)
    requires IsInt64(n)
    ensures ParseLongLong(ToString(n)) == Number(n)
  {
    var magnitude: nat := if n < 0 then -n else n;
    var digits := NatToString(magnitude);
    ValueOfNatToString(magnitude);
    DigitRunOf(digits, []);
    assert digits + [] == digits && digits[..|digits|] == digits;
    assert SkipSpaces(ToString(n)) == ToString(n);
    assert n < 0 ==> ToString(n)[1..] == digits;
  }

  /** White space, an optional sign, digits, and after them anything else. */
  predicate NumeralParts(s: string, spaces: string, sign: string, digits: string, tail: string) {
    && s == spaces + sign + digits + tail
    && (forall i | 0 <= i < |spaces| :: IsSpace(spaces[i]))
    && (sign == "" || sign == "+" || sign == "-")
    && digits != "" && AllDigits(digits)
    && (tail == "" || !IsDigit(tail[0]))
  }

  /** The text starts with a numeral for `n`. */
  ghost predicate Numeral(s: string, n: int) {
    exists spaces, sign, digits, tail ::
      NumeralParts(s, spaces, sign, digits, tail) &&
      n == (var magnitude: int := Value(digits); if sign == "-" then -magnitude else magnitude)
  }

  /** The three outcomes of `std::stoll`, each exactly. */
  lemma StollExactly(s: string)
    ensures forall n :: ParseLongLong(s) == Number(n) <==> Numeral(s, n) && IsInt64(n)
    ensures ParseLongLong(s) == TooBig <==> exists n :: Numeral(s, n) && !IsInt64(n)
    ensures ParseLongLong(s) == NotANumber <==> forall n :: !Numeral(s, n)
  {
    hide Numeral, ParseLongLong;
    forall n | Numeral(s, n)
      ensures ParseLongLong(s) == if IsInt64(n) then Number(n) else TooBig
    {
      NumeralParses(s, n);
    }
    if ParseLongLong(s) != NotANumber {
      var n := ParsesNumeral(s);
      assert Numeral(s, n);
    }
  }

  lemma NumeralParses(s: string, n: int)
    requires Numeral(s, n)
    ensures ParseLongLong(s) == if IsInt64(n) then Number(n) else TooBig
  {
    hide Value, DigitRun, SkipSpaces;
    var spaces, sign, digits, tail :| NumeralParts(s, spaces, sign, digits, tail) &&
      n == (var magnitude: int := Value(digits); if sign == "-" then -magnitude else magnitude);
    var rest := digits + tail;
    assert s == spaces + (sign + rest);
    SkipSpacesOf(spaces, sign + rest);
    DigitRunOf(digits, tail);
    assert rest[..|digits|] == digits;
    if sign == "" {
      assert sign + rest == rest;
    } else {
      assert (sign + rest)[1..] == rest;
    }
  }

  lemma ParsesNumeral(s: string) returns (n: int)
    requires ParseLongLong(s) != NotANumber
    ensures Numeral(s, n)
  {
    hide Value, DigitRun, SkipSpaces, ParseLongLong;
    var spaces := SkippedSpaces(s);
    var sign, digits, tail := SplitBody(s);
    assert spaces + sign + digits + tail == spaces + (sign + digits + tail);
    assert NumeralParts(s, spaces, sign, digits, tail);
    hide NumeralParts;
    var magnitude: int := Value(digits);
    n := if sign == "-" then -magnitude else magnitude;
  }

  lemma SplitBody(s: string) returns (sign: string, digits: string, tail: string)
    requires ParseLongLong(s) != NotANumber
    ensures SkipSpaces(s) == sign + digits + tail && (sign == "" || sign == "+" || sign == "-")
    ensures digits != "" && AllDigits(digits) && (tail == "" || !IsDigit(tail[0]))
  {
    hide Value, DigitRun, SkipSpaces, AllDigits;
    var body := SkipSpaces(s);
    var signed := body != [] && (body[0] == '-' || body[0] == '+');
    var rest := if signed then body[1..] else body;
    assert DigitRun(rest) > 0;
    hide ParseLongLong;
    sign, digits, tail := if signed then body[..1] else "", rest[..DigitRun(rest)], rest[DigitRun(rest)..];
    assert sign + rest == body && digits + tail == rest;
    assert sign + digits + tail == sign + (digits + tail);
  }

  lemma {:induction false} SkipSpacesOf(spaces: string, rest: string)
    requires forall i | 0 <= i < |spaces| :: IsSpace(spaces[i])
    requires rest == "" || !IsSpace(rest[0])
    ensures SkipSpaces(spaces + rest) == rest
  {
    if spaces == [] {
      assert spaces + rest == rest;
    } else {
      SkipSpacesOf(spaces[1..], rest);
      assert (spaces + rest)[1..] == spaces[1..] + rest;
    }
  }

  lemma {:induction false} SkippedSpaces(s: string) returns (spaces: string)
    ensures s == spaces + SkipSpaces(s) && forall i | 0 <= i < |spaces| :: IsSpace(spaces[i])
  {
    spaces := "";
    if s != [] && IsSpace(s[0]) {
      var more := SkippedSpaces(s[1..]);
      spaces := [s[0]] + more;
    }
  }

  // ---- std::string::find("\r\n") ----

  predicate CrlfAt(s: string, i: int) {
    0 <= i && i + 1 < |s| && s[i] == '\r' && s[i + 1] == '\n'
  }

  ghost predicate HasCrlf(s: string) {
    exists i :: CrlfAt(s, i)
  }

  /** The first position of CR LF in `s`. */
  function FindCrlf(s: string): (r: Option<nat>)
    ensures r.Some? ==> CrlfAt(s, r.value)
  {
    if |s| < 2 then None
    else if CrlfAt(s, 0) then Some(0)
    else
      match FindCrlf(s[1..])
      case None => None
      case Some(i) => Some(i + 1)
  }

  lemma {:induction false} FindCrlfIsFirst(s: string, i: nat)
    requires CrlfAt(s, i)
    ensures FindCrlf(s).Some? && FindCrlf(s).value <= i
  {
    if i > 0 {
      FindCrlfIsFirst(s[1..], i - 1);
    }
  }

  /** A first CR LF stays the first when more text arrives. */
  lemma FindCrlfExtends(s: string, t: string)
    requires FindCrlf(s).Some?
    ensures FindCrlf(s + t) == FindCrlf(s)
  {
    var i := FindCrlf(s).value;
    FindCrlfIsFirst(s + t, i);
    var j := FindCrlf(s + t).value;
    assert CrlfAt(s, j);
    FindCrlfIsFirst(s, j);
  }

  /** The text before the first CR LF holds none, and fixes where it is. */
  lemma FindCrlfAfter(line: string, rest: string)
    requires !HasCrlf(line)
    ensures FindCrlf(line + "\r\n" + rest) == Some(|line|)
  {
    var s := line + "\r\n" + rest;
    FindCrlfIsFirst(s, |line|);
    var i := FindCrlf(s).value;
    assert s[|line|] == '\r';
    assert i < |line| - 1 ==> CrlfAt(line, i);
  }

  lemma FindCrlfLineClean(s: string)
    requires FindCrlf(s).Some?
    ensures !HasCrlf(s[..FindCrlf(s).value])
  {
    var i := FindCrlf(s).value;
    if j :| CrlfAt(s[..i], j) {
      FindCrlfIsFirst(s, j);
    }
  }
}
