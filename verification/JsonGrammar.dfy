/** Which texts a snapshot may be restored from. The grammar is given as relations between a
    text and what is left of it, with any white space before each token; the reader takes
    exactly these texts, and of any other it keeps the pairs that stand whole in front. */
module JsonGrammar {
  import opened Text
  import opened Serialise
  import opened Store
  import opened StoreJson

  // ---- Tokens ----

  predicate IsHexDigit(ch: char, n: nat) {
    n < 16 && (ch == "0123456789abcdef"[n] || ch == "0123456789ABCDEF"[n])
  }

  /** One character inside a literal: itself, or one of the escapes. */
  ghost predicate IsCharText(t: string, c: char) {
    || (t == [c] && c != '"' && c != '\\')
    || (t == "\\\"" && c == '"') || (t == "\\\\" && c == '\\') || (t == "\\/" && c == '/')
    || (t == "\\b" && c == 8 as char) || (t == "\\f" && c == 12 as char)
    || (t == "\\n" && c == '\n') || (t == "\\r" && c == '\r') || (t == "\\t" && c == '\t')
    || (|t| == 6 && t[..4] == "\\u00" &&
        exists a: nat, b: nat :: IsHexDigit(t[4], a) && IsHexDigit(t[5], b) && c as int == 16 * a + b)
  }

  ghost predicate IsBody(t: string, v: string) {
    if v == "" then t == ""
    else exists k | 0 <= k <= |t| :: IsCharText(t[..k], v[0]) && IsBody(t[k..], v[1..])
  }

  ghost predicate IsLiteral(t: string, v: string) {
    |t| >= 2 && t[0] == '"' && t[|t| - 1] == '"' && IsBody(t[1..|t| - 1], v)
  }

  ghost predicate IsValueText(t: string, value: Option<string>) {
    if value.None? then t == "null" else IsLiteral(t, value.value)
  }

  /** White space, the token, and what is left. */
  ghost predicate Begins(s: string, t: string, rest: string) {
    exists gap :: AllWhitespace(gap) && s == gap + (t + rest)
  }

  // ---- Phrases ----

  ghost predicate LiteralThen(s: string, v: string, rest: string) {
    exists t :: IsLiteral(t, v) && Begins(s, t, rest)
  }

  ghost predicate ValueThen(s: string, value: Option<string>, rest: string) {
    exists t :: IsValueText(t, value) && Begins(s, t, rest)
  }

  ghost predicate IntegerThen(s: string, n: int, rest: string) {
    exists t :: IsIntegerText(t, n) && Begins(s, t, rest) && (rest == "" || !IsDigit(rest[0]))
  }

  ghost predicate LabelThen(s: string, name: string, rest: string) {
    exists s1 :: LiteralThen(s, name, s1) && Begins(s1, ":", rest)
  }

  ghost predicate ExpiryThen(s: string, n: int, rest: string) {
    exists s1, s2 :: LabelThen(s, "expiry", s1) && IntegerThen(s1, n, s2) && Begins(s2, "}", rest)
  }

  ghost predicate FieldsThen(s: string, e: Entry, rest: string) {
    exists s1, s2, s3 ::
      LabelThen(s, "value", s1) && ValueThen(s1, e.value, s2) && Begins(s2, ",", s3) && ExpiryThen(s3, e.expiry, rest)
  }

  ghost predicate PairThen(s: string, key: string, e: Entry, rest: string) {
    exists s1, s2 :: LabelThen(s, key, s1) && Begins(s1, "{", s2) && FieldsThen(s2, e, rest)
  }

  /** Pairs with commas between them. */
  ghost predicate PairsThen(s: string, pairs: Pairs, rest: string)
    decreases |pairs|
  {
    pairs != [] &&
    exists s1 ::
      && PairThen(s, pairs[0].0, pairs[0].1, s1)
      && (if |pairs| == 1 then rest == s1
          else exists s2 :: Begins(s1, ",", s2) && PairsThen(s2, pairs[1..], rest))
  }

  /** The whole text is an object of these pairs, with nothing but white space around it. */
  ghost predicate IsObject(s: string, pairs: Pairs) {
    exists s1, s2, rest ::
      && Begins(s, "{", s1)
      && (if pairs == [] then s2 == s1 else PairsThen(s1, pairs, s2))
      && Begins(s2, "}", rest) && AllWhitespace(rest)
  }

  /** The text opens an object and these pairs stand whole at its front. */
  ghost predicate Fronts(s: string, pairs: Pairs) {
    pairs == [] || exists s1 :: Begins(s, "{", s1) && Stands(s1, pairs)
  }

  ghost predicate Stands(s: string, pairs: Pairs) {
    exists rest :: PairsThen(s, pairs, rest)
  }

  // ---- Tokens are read exactly ----

  lemma SkipExactly(s: string)
    ensures exists gap :: AllWhitespace(gap) && s == gap + Skip(s)
  {
    var gap := Skipped(s);
  }

  lemma {:induction false} Skipped(s: string) returns (gap: string)
    ensures AllWhitespace(gap) && s == gap + Skip(s)
  {
    gap := "";
    if s != "" && IsWhitespace(s[0]) {
      var more := Skipped(s[1..]);
      gap := [s[0]] + more;
    }
  }

  lemma BeginsExactly(s: string, t: string, rest: string)
    requires t != "" && !IsWhitespace(t[0])
    ensures Begins(s, t, rest) <==> Skip(s) == t + rest
  {
    hide Skip;
    if Begins(s, t, rest) {
      var gap :| AllWhitespace(gap) && s == gap + (t + rest);
      SkipGap(gap, t + rest);
    }
    SkipExactly(s);
  }

  lemma ExpectExactly(s: string, c: char, rest: string)
    requires !IsWhitespace(c)
    ensures Expect(s, c) == Some(rest) <==> Begins(s, [c], rest)
  {
    BeginsExactly(s, [c], rest);
    hide Begins, Skip;
    if Skip(s) == [c] + rest {
      assert ([c] + rest)[1..] == rest;
    }
    if Expect(s, c) == Some(rest) {
      assert Skip(s) == [Skip(s)[0]] + Skip(s)[1..];
    }
  }

  lemma HexDigitExactly(ch: char, n: nat)
    ensures IsHexDigit(ch, n) <==> HexValue(ch) == n
  {
  }

  lemma HexByteExactly(d: string, c: char)
    requires |d| == 4
    ensures HexByte(d) == Some(c) <==>
      d[..2] == "00" && exists a: nat, b: nat :: IsHexDigit(d[2], a) && IsHexDigit(d[3], b) && c as int == 16 * a + b
  {
    hide IsHexDigit, HexValue;
    forall i, n: nat | 0 <= i < 4 ensures IsHexDigit(d[i], n) <==> HexValue(d[i]) == n {
      HexDigitExactly(d[i], n);
    }
    ZeroDigit(d[0]);
    ZeroDigit(d[1]);
    if HexByte(d) == Some(c) {
      assert IsHexDigit(d[2], HexValue(d[2])) && IsHexDigit(d[3], HexValue(d[3]));
      assert d[..2] == "00";
    }
    if d[..2] == "00" && exists a: nat, b: nat :: IsHexDigit(d[2], a) && IsHexDigit(d[3], b) && c as int == 16 * a + b {
      assert d[0] == d[..2][0] && d[1] == d[..2][1];
      var a: nat, b: nat :| IsHexDigit(d[2], a) && IsHexDigit(d[3], b) && c as int == 16 * a + b;
      HexDigitSmall(d[2], a);
      HexDigitSmall(d[3], b);
      assert HexValue(d[2]) == a && HexValue(d[3]) == b;
      assert ((0 * 16 + 0) * 16 + a) * 16 + b == 16 * a + b;
    }
  }

  lemma HexDigitSmall(ch: char, n: nat)
    requires IsHexDigit(ch, n)
    ensures n < 16
  {
  }

  lemma ZeroDigit(ch: char)
    ensures HexValue(ch) == 0 <==> ch == '0'
  {
  }

  /** What one character of a literal is read from. */
  lemma CharRead(s: string)
    requires s != "" && s[0] != '"' && ReadChar(s).Some?
    ensures var (c, rest) := ReadChar(s).value;
      exists t :: t != "" && IsCharText(t, c) && s == t + rest
  {
    hide HexByte;
    var (c, rest) := ReadChar(s).value;
    var t := s[..|s| - |rest|];
    if s[0] == '\\' && s[1] == 'u' {
      var d := s[2..][..4];
      HexByteExactly(d, c);
      assert t == s[..2] + d && t[..4] == s[..2] + d[..2] && t[4] == d[2] && t[5] == d[3];
    }
    assert s == t + rest;
    assert IsCharText(t, c);
  }

  lemma CharReads(t: string, c: char, rest: string)
    requires IsCharText(t, c)
    ensures t != "" && t[0] != '"' && ReadChar(t + rest) == Some((c, rest))
  {
    hide HexByte;
    var s := t + rest;
    if |t| == 1 {
      assert s[1..] == rest;
    } else if |t| == 2 {
      assert s[2..] == rest;
    } else {
      var d := t[2..];
      assert s[2..][..4] == d && s[2..][4..] == rest;
      assert d[..2] == t[..4][2..] && d[2] == t[4] && d[3] == t[5];
      assert t[0] == t[..4][0] && t[1] == t[..4][1];
      HexByteExactly(d, c);
    }
  }

  lemma {:induction false} BodyRead(s: string) returns (t: string)
    requires ReadChars(s).Some?
    ensures var (v, rest) := ReadChars(s).value;
      IsBody(t, v) && s == t + "\"" + rest
    decreases |s|
  {
    hide ReadChar, IsCharText;
    t := "";
    if s[0] != '"' {
      var (c, rest) := ReadChar(s).value;
      CharRead(s);
      var first :| first != "" && IsCharText(first, c) && s == first + rest;
      var more := BodyRead(rest);
      t := first + more;
      var v := ReadChars(s).value.0;
      assert t[..|first|] == first && t[|first|..] == more && v[0] == c && v[1..] == ReadChars(rest).value.0;
    }
  }

  lemma {:induction false} BodyReads(t: string, v: string, rest: string)
    requires IsBody(t, v)
    ensures ReadChars(t + "\"" + rest) == Some((v, rest))
    decreases |v|
  {
    hide ReadChar, IsCharText;
    var s := t + "\"" + rest;
    if v == "" {
      assert s[1..] == rest;
    } else {
      var k :| 0 <= k <= |t| && IsCharText(t[..k], v[0]) && IsBody(t[k..], v[1..]);
      var after := t[k..] + "\"" + rest;
      CharReads(t[..k], v[0], after);
      BodyReads(t[k..], v[1..], rest);
      assert s == t[..k] + after && [v[0]] + v[1..] == v;
    }
  }

  lemma LiteralExactly(s: string, v: string, rest: string)
    ensures ReadString(Skip(s)) == Some((v, rest)) <==> LiteralThen(s, v, rest)
  {
    hide Skip, ReadChars, Begins, IsBody;
    if ReadString(Skip(s)) == Some((v, rest)) {
      var body := BodyRead(Skip(s)[1..]);
      var t := "\"" + body + "\"";
      assert t[1..|t| - 1] == body && IsLiteral(t, v);
      assert Skip(s) == [Skip(s)[0]] + Skip(s)[1..] && Skip(s) == t + rest;
      BeginsExactly(s, t, rest);
    }
    if LiteralThen(s, v, rest) {
      var t :| IsLiteral(t, v) && Begins(s, t, rest);
      BeginsExactly(s, t, rest);
      var body := t[1..|t| - 1];
      assert t == "\"" + body + "\"" && (t + rest)[1..] == body + "\"" + rest;
      BodyReads(body, v, rest);
    }
  }

  lemma ValueExactly(s: string, value: Option<string>, rest: string)
    ensures ReadValue(s) == Some((value, rest)) <==> ValueThen(s, value, rest)
  {
    hide Skip, ReadString, Begins, IsLiteral;
    BeginsExactly(s, "null", rest);
    var t := Skip(s);
    if "null" <= t {
      assert t == "null" + t[4..];
    }
    if value.Some? {
      LiteralExactly(s, value.value, rest);
      if LiteralThen(s, value.value, rest) {
        LiteralIsNotNull(s, value.value, rest);
      }
      assert ValueThen(s, value, rest) <==> LiteralThen(s, value.value, rest);
      if "null" <= t {
        NullIsNoString(t);
      }
    } else {
      assert ValueThen(s, value, rest) <==> Begins(s, "null", rest);
      if Skip(s) == "null" + rest {
        assert ("null" + rest)[4..] == rest;
      }
    }
  }

  lemma NullIsNoString(t: string)
    requires "null" <= t
    ensures ReadString(t).None?
  {
  }

  lemma LiteralIsNotNull(s: string, v: string, rest: string)
    requires LiteralThen(s, v, rest)
    ensures !("null" <= Skip(s))
  {
    hide Skip, Begins, IsBody;
    var t :| IsLiteral(t, v) && Begins(s, t, rest);
    BeginsExactly(s, t, rest);
    assert Skip(s)[0] == '"';
  }

  lemma IntegerExactly(s: string, n: int, rest: string)
    ensures ReadInteger(Skip(s)) == Some((n, rest)) <==> IntegerThen(s, n, rest)
  {
    hide Skip, FromChars, Begins;
    var body := Skip(s);
    if ReadInteger(body) == Some((n, rest)) {
      var used := FromChars(body).value.1;
      FromCharsExactly(body, n, used);
      var t := body[..used];
      assert body == t + rest;
      IntegerStarts(t, n);
      BeginsExactly(s, t, rest);
    }
    if IntegerThen(s, n, rest) {
      var t :| IsIntegerText(t, n) && Begins(s, t, rest) && (rest == "" || !IsDigit(rest[0]));
      IntegerStarts(t, n);
      BeginsExactly(s, t, rest);
      assert body[..|t|] == t && body[|t|..] == rest;
      FromCharsExactly(body, n, |t|);
    }
  }

  lemma IntegerStarts(t: string, n: int)
    requires IsIntegerText(t, n)
    ensures t != "" && !IsWhitespace(t[0])
  {
    hide Value;
  }

  // ---- Phrases are read exactly ----

  lemma LabelExactly(s: string, name: string, rest: string)
    ensures ReadLabel(s, name) == Some(rest) <==> LabelThen(s, name, rest)
  {
    hide LiteralThen, Begins, Expect, ReadString, Skip;
    forall s1 ensures ReadString(Skip(s)) == Some((name, s1)) <==> LiteralThen(s, name, s1) {
      LiteralExactly(s, name, s1);
    }
    forall s1 ensures Expect(s1, ':') == Some(rest) <==> Begins(s1, ":", rest) {
      ExpectExactly(s1, ':', rest);
    }
  }

  lemma ExpiryExactly(s: string, n: int, rest: string)
    ensures ReadExpiry(s) == Some((n, rest)) <==> ExpiryThen(s, n, rest)
  {
    hide LabelThen, IntegerThen, Begins, ReadLabel, ReadInteger, Expect, Skip;
    forall s1 ensures ReadLabel(s, "expiry") == Some(s1) <==> LabelThen(s, "expiry", s1) {
      LabelExactly(s, "expiry", s1);
    }
    forall s1, s2 ensures ReadInteger(Skip(s1)) == Some((n, s2)) <==> IntegerThen(s1, n, s2) {
      IntegerExactly(s1, n, s2);
    }
    forall s2 ensures Expect(s2, '}') == Some(rest) <==> Begins(s2, "}", rest) {
      ExpectExactly(s2, '}', rest);
    }
  }

  lemma FieldsExactly(s: string, e: Entry, rest: string)
    ensures ReadFields(s) == Some((e, rest)) <==> FieldsThen(s, e, rest)
  {
    hide LabelThen, ValueThen, ExpiryThen, Begins, ReadLabel, ReadValue, ReadExpiry, Expect;
    forall s1 ensures ReadLabel(s, "value") == Some(s1) <==> LabelThen(s, "value", s1) {
      LabelExactly(s, "value", s1);
    }
    forall s1, s2 ensures ReadValue(s1) == Some((e.value, s2)) <==> ValueThen(s1, e.value, s2) {
      ValueExactly(s1, e.value, s2);
    }
    forall s2, s3 ensures Expect(s2, ',') == Some(s3) <==> Begins(s2, ",", s3) {
      ExpectExactly(s2, ',', s3);
    }
    forall s3 ensures ReadExpiry(s3) == Some((e.expiry, rest)) <==> ExpiryThen(s3, e.expiry, rest) {
      ExpiryExactly(s3, e.expiry, rest);
    }
  }

  lemma PairExactly(s: string, key: string, e: Entry, rest: string)
    ensures ReadPair(s) == Some((key, e, rest)) <==> PairThen(s, key, e, rest)
  {
    hide LiteralThen, FieldsThen, Begins, ReadString, ReadEntry, ReadFields, Expect, Skip;
    forall s1 ensures ReadString(Skip(s)) == Some((key, s1)) <==> LiteralThen(s, key, s1) {
      LiteralExactly(s, key, s1);
    }
    forall s1, s2 ensures Expect(s1, ':') == Some(s2) <==> Begins(s1, ":", s2) {
      ExpectExactly(s1, ':', s2);
    }
    forall s2, s3 ensures Expect(s2, '{') == Some(s3) <==> Begins(s2, "{", s3) {
      ExpectExactly(s2, '{', s3);
    }
    forall s3 ensures ReadFields(s3) == Some((e, rest)) <==> FieldsThen(s3, e, rest) {
      FieldsExactly(s3, e, rest);
    }
    forall s2
      ensures ReadEntry(Skip(s2)) == match Expect(s2, '{') case None => None case Some(t) => ReadFields(t)
    {
      EntryAfterGap(s2);
    }
  }

  // ---- Objects are read exactly ----

  /** The pairs standing at the front, read one after another, are what the loop stores, and
      no longer list stands there. */
  lemma {:induction false} MembersStored(s: string, data: Data) returns (pairs: Pairs)
    ensures ReadMembers(s, data).data == Override(data, pairs)
    ensures pairs == [] || Stands(s, pairs)
    ensures forall ps, rest | PairsThen(s, ps, rest) :: ps <= pairs
    ensures forall rest :: ReadMembers(s, data).rest == Some(rest) <==>
      exists s2 :: PairsThen(s, pairs, s2) && Begins(s2, "}", rest)
    decreases |s|
  {
    hide ReadPair, PairThen, Begins, Skip, Override, PairsThen, ReadMembers;
    MembersUnfold(s, data);
    match ReadPair(s)
    case None =>
      pairs := [];
      NoOverride(data);
      forall ps, rest | PairsThen(s, ps, rest) ensures false {
        FirstPair(s, ps, rest);
      }
    case Some((key, e, s1)) =>
      PairExactly(s, key, e, s1);
      var t := Skip(s1);
      var one := [(key, e)];
      OnePair(s, key, e, s1);
      OverrideOne(data, key, e);
      if t != "" && t[0] == ',' {
        BeginsExactly(s1, ",", t[1..]);
        assert t == "," + t[1..];
        var more := MembersStored(t[1..], data[key := e]);
        pairs := one + more;
        MorePairs(s, key, e, s1, t[1..], more, data);
      } else {
        pairs := one;
        LastPair(s, key, e, s1, data);
      }
  }

  lemma MembersUnfold(s: string, data: Data)
    ensures ReadMembers(s, data) ==
      match ReadPair(s)
      case None => Load(data, None)
      case Some((key, e, s1)) =>
        var data', t := data[key := e], Skip(s1);
        if t == "" then Load(data', None)
        else if t[0] == ',' then ReadMembers(t[1..], data')
        else if t[0] == '}' then Load(data', Some(t[1..]))
        else Load(data', None)
  {
    hide ReadPair, Skip;
  }

  lemma NoOverride(data: Data)
    ensures Override(data, []) == data
  {
  }

  lemma OverrideOne(data: Data, key: string, e: Entry)
    ensures Override(data, [(key, e)]) == data[key := e]
    ensures forall more: Pairs :: Override(data, [(key, e)] + more) == Override(data[key := e], more)
  {
    forall more: Pairs ensures Override(data, [(key, e)] + more) == Override(data[key := e], more) {
      assert ([(key, e)] + more)[1..] == more;
    }
    assert [(key, e)] + [] == [(key, e)];
  }

  lemma FirstPair(s: string, ps: Pairs, rest: string)
    requires PairsThen(s, ps, rest)
    ensures ps != [] && exists s1 :: ReadPair(s) == Some((ps[0].0, ps[0].1, s1))
  {
    hide PairThen, ReadPair, Begins;
    var s1 :| PairThen(s, ps[0].0, ps[0].1, s1);
    PairExactly(s, ps[0].0, ps[0].1, s1);
  }

  lemma OnePair(s: string, key: string, e: Entry, s1: string)
    requires PairThen(s, key, e, s1)
    ensures PairsThen(s, [(key, e)], s1)
  {
    hide PairThen, Begins;
    var pairs := [(key, e)];
    assert pairs[0].0 == key && pairs[0].1 == e && PairThen(s, pairs[0].0, pairs[0].1, s1);
  }

  /** How a list that starts with the pair read can go on. */
  lemma PairsAfter(s: string, key: string, e: Entry, s1: string, ps: Pairs, rest: string)
    requires ReadPair(s) == Some((key, e, s1)) && PairsThen(s, ps, rest)
    ensures ps != [] && ps[0] == (key, e)
    ensures |ps| == 1 ==> rest == s1
    ensures |ps| > 1 ==>
      Skip(s1) != "" && Skip(s1)[0] == ',' && PairsThen(Skip(s1)[1..], ps[1..], rest)
  {
    hide PairThen, ReadPair, Begins, Skip;
    var r1 :| PairThen(s, ps[0].0, ps[0].1, r1) &&
              (if |ps| == 1 then rest == r1 else exists s2 :: Begins(r1, ",", s2) && PairsThen(s2, ps[1..], rest));
    PairExactly(s, ps[0].0, ps[0].1, r1);
    if |ps| > 1 {
      var s2 :| Begins(r1, ",", s2) && PairsThen(s2, ps[1..], rest);
      BeginsExactly(r1, ",", s2);
      assert ("," + s2)[1..] == s2;
    }
  }

  lemma LastPair(s: string, key: string, e: Entry, s1: string, data: Data)
    requires ReadPair(s) == Some((key, e, s1)) && !(Skip(s1) != "" && Skip(s1)[0] == ',')
    ensures forall ps, rest | PairsThen(s, ps, rest) :: ps <= [(key, e)]
    ensures forall rest :: ReadMembers(s, data).rest == Some(rest) <==>
      exists s2 :: PairsThen(s, [(key, e)], s2) && Begins(s2, "}", rest)
  {
    hide ReadPair, PairThen, Begins, Skip, PairsThen, ReadMembers;
    MembersUnfold(s, data);
    PairExactly(s, key, e, s1);
    OnePair(s, key, e, s1);
    forall ps, rest | PairsThen(s, ps, rest) ensures ps == [(key, e)] && rest == s1 {
      PairsAfter(s, key, e, s1, ps, rest);
      assert |ps| == 1;
    }
    forall rest ensures Begins(s1, "}", rest) <==> Skip(s1) == "}" + rest {
      BeginsExactly(s1, "}", rest);
    }
    forall rest ensures Skip(s1) == "}" + rest <==> Skip(s1) != "" && Skip(s1)[0] == '}' && Skip(s1)[1..] == rest {
      assert ("}" + rest)[1..] == rest;
      assert Skip(s1) != "" ==> Skip(s1) == [Skip(s1)[0]] + Skip(s1)[1..];
    }
  }

  lemma MorePairs(s: string, key: string, e: Entry, s1: string, s2: string, more: Pairs, data: Data)
    requires ReadPair(s) == Some((key, e, s1)) && Skip(s1) == "," + s2
    requires more == [] || Stands(s2, more)
    requires forall ps, rest | PairsThen(s2, ps, rest) :: ps <= more
    requires forall rest :: ReadMembers(s2, data[key := e]).rest == Some(rest) <==>
      exists r :: PairsThen(s2, more, r) && Begins(r, "}", rest)
    ensures Stands(s, [(key, e)] + more)
    ensures forall ps, rest | PairsThen(s, ps, rest) :: ps <= [(key, e)] + more
    ensures forall rest :: ReadMembers(s, data).rest == Some(rest) <==>
      exists r :: PairsThen(s, [(key, e)] + more, r) && Begins(r, "}", rest)
  {
    hide ReadPair, PairThen, Begins, Skip, PairsThen, ReadMembers;
    MembersUnfold(s, data);
    assert Skip(s1)[1..] == s2;
    PairExactly(s, key, e, s1);
    OnePair(s, key, e, s1);
    var all := [(key, e)] + more;
    assert all[1..] == more;
    forall ps, rest | PairsThen(s, ps, rest) ensures ps <= all {
      PairsAfter(s, key, e, s1, ps, rest);
      if |ps| > 1 {
        assert ps[1..] <= more && ps == [ps[0]] + ps[1..];
      }
    }
    forall r ensures PairsThen(s, all, r) <==> (if more == [] then r == s1 else PairsThen(s2, more, r)) {
      PairsCons(s, key, e, s1, s2, more, r);
    }
    if more == [] {
      CommaIsNoBrace(s1, s2);
      assert all == [(key, e)];
      forall r ensures !PairsThen(s2, more, r) {
        NoPairs(s2, r);
      }
    }
  }

  lemma PairsCons(s: string, key: string, e: Entry, s1: string, s2: string, more: Pairs, r: string)
    requires ReadPair(s) == Some((key, e, s1)) && Skip(s1) == "," + s2
    ensures PairsThen(s, [(key, e)] + more, r) <==> (if more == [] then r == s1 else PairsThen(s2, more, r))
  {
    hide ReadPair, PairThen, Begins, Skip;
    var all := [(key, e)] + more;
    assert all[1..] == more && Skip(s1)[1..] == s2;
    PairExactly(s, key, e, s1);
    BeginsExactly(s1, ",", s2);
    assert all[0].0 == key && all[0].1 == e && PairThen(s, all[0].0, all[0].1, s1);
    if PairsThen(s, all, r) {
      PairsAfter(s, key, e, s1, all, r);
    }
  }

  lemma NoPairs(s: string, r: string)
    ensures !PairsThen(s, [], r)
  {
  }

  lemma CommaIsNoBrace(s1: string, s2: string)
    requires Skip(s1) == "," + s2
    ensures forall rest :: !Begins(s1, "}", rest)
  {
    hide Skip, Begins;
    forall rest ensures !Begins(s1, "}", rest) {
      BeginsExactly(s1, "}", rest);
      assert ("," + s2)[0] != ("}" + rest)[0];
    }
  }

  /** A load succeeds exactly on the texts of the grammar, and then overrides the store pair
      by pair. On every text it stores the longest list of pairs that stands whole at the
      front, in order, and nothing else. */
  lemma LoadExactly(s: string, data: Data) returns (pairs: Pairs)
    ensures Deserialised(s, data).0 == Override(data, pairs)
    ensures Fronts(s, pairs) && forall ps | Fronts(s, ps) :: ps <= pairs
    ensures Deserialised(s, data).1 <==> IsObject(s, pairs)
    ensures forall ps | IsObject(s, ps) :: ps == pairs
  {
    hide Skip, Begins, ReadMembers, PairsThen, Override, Fronts, IsObject;
    if Expect(s, '{').Some? {
      pairs := OpenedExactly(s, Expect(s, '{').value, data);
    } else {
      pairs := [];
      NoOverride(data);
      NeverOpened(s);
    }
  }

  lemma NeverOpened(s: string)
    requires Expect(s, '{').None?
    ensures Fronts(s, []) && (forall ps | Fronts(s, ps) :: ps == []) && forall ps :: !IsObject(s, ps)
  {
    hide Expect, Begins, PairsThen;
    forall s1 ensures !Begins(s, "{", s1) {
      ExpectExactly(s, '{', s1);
    }
  }

  lemma OpenedExactly(s: string, s1: string, data: Data) returns (pairs: Pairs)
    requires Expect(s, '{') == Some(s1)
    ensures Deserialised(s, data).0 == Override(data, pairs)
    ensures Fronts(s, pairs) && forall ps | Fronts(s, ps) :: ps <= pairs
    ensures Deserialised(s, data).1 <==> IsObject(s, pairs)
    ensures forall ps | IsObject(s, ps) :: ps == pairs
  {
    hide Skip, Begins, ReadMembers, PairsThen, Override, Fronts, IsObject, Expect;
    forall ps ensures Fronts(s, ps) <==> ps == [] || Stands(s1, ps) {
      FrontsOpened(s, s1, ps);
    }
    forall ps ensures IsObject(s, ps) <==> Closes(s1, ps) {
      ObjectOpened(s, s1, ps);
    }
    var t := Skip(s1);
    if t != "" && t[0] == '}' {
      pairs := [];
      NoOverride(data);
      EmptyObject(s1);
    } else {
      pairs := MembersStored(s1, data);
      FullObject(s1, data, pairs);
    }
  }

  /** The pairs, then the closing brace, then white space. */
  ghost predicate Closes(s1: string, pairs: Pairs) {
    exists s2, rest ::
      (if pairs == [] then s2 == s1 else PairsThen(s1, pairs, s2)) && Begins(s2, "}", rest) && AllWhitespace(rest)
  }

  lemma FrontsOpened(s: string, s1: string, ps: Pairs)
    requires Expect(s, '{') == Some(s1)
    ensures Fronts(s, ps) <==> ps == [] || Stands(s1, ps)
  {
    hide Expect, Begins, Stands;
    forall x ensures Begins(s, "{", x) <==> x == s1 {
      ExpectExactly(s, '{', x);
    }
    assert Begins(s, "{", s1);
  }

  lemma ObjectOpened(s: string, s1: string, ps: Pairs)
    requires Expect(s, '{') == Some(s1)
    ensures IsObject(s, ps) <==> Closes(s1, ps)
  {
    hide Expect, Begins, PairsThen;
    forall x ensures Begins(s, "{", x) <==> x == s1 {
      ExpectExactly(s, '{', x);
    }
    if Closes(s1, ps) {
      var s2, rest :| (if ps == [] then s2 == s1 else PairsThen(s1, ps, s2)) && Begins(s2, "}", rest) &&
                      AllWhitespace(rest);
      assert Begins(s, "{", s1);
    }
  }

  lemma BlankExactly(s: string)
    ensures Skip(s) == "" <==> AllWhitespace(s)
  {
    var gap := Skipped(s);
    assert gap + "" == gap;
    if AllWhitespace(s) {
      SkipGap(s, "");
      assert s + "" == s;
    }
  }

  lemma ClosingBrace(s: string, rest: string)
    ensures Begins(s, "}", rest) <==> Skip(s) != "" && Skip(s)[0] == '}' && Skip(s)[1..] == rest
  {
    BeginsExactly(s, "}", rest);
    hide Skip, Begins;
    assert ("}" + rest)[1..] == rest;
    assert Skip(s) != "" ==> Skip(s) == [Skip(s)[0]] + Skip(s)[1..];
  }

  lemma EmptyObject(s1: string)
    requires Skip(s1) != "" && Skip(s1)[0] == '}'
    ensures forall ps, rest :: !PairsThen(s1, ps, rest)
    ensures Closes(s1, []) <==> Skip(Skip(s1)[1..]) == ""
    ensures forall ps | Closes(s1, ps) :: ps == []
  {
    hide Skip, Begins, PairsThen, ReadPair;
    forall ps, rest ensures !PairsThen(s1, ps, rest) {
      if PairsThen(s1, ps, rest) {
        FirstPair(s1, ps, rest);
        BraceIsNoPair(s1);
      }
    }
    var rest := Skip(s1)[1..];
    BlankExactly(rest);
    forall x ensures Begins(s1, "}", x) <==> x == rest {
      ClosingBrace(s1, x);
    }
    if AllWhitespace(rest) {
      assert Begins(s1, "}", rest);
    }
  }

  lemma BraceIsNoPair(s: string)
    requires Skip(s) != "" && Skip(s)[0] == '}'
    ensures ReadPair(s).None?
  {
    hide Skip;
  }

  lemma FullObject(s1: string, data: Data, pairs: Pairs)
    requires !(Skip(s1) != "" && Skip(s1)[0] == '}')
    requires pairs == [] || Stands(s1, pairs)
    requires forall ps, rest | PairsThen(s1, ps, rest) :: ps <= pairs
    requires forall rest :: ReadMembers(s1, data).rest == Some(rest) <==>
      exists s2 :: PairsThen(s1, pairs, s2) && Begins(s2, "}", rest)
    ensures var load := ReadMembers(s1, data);
      Closes(s1, pairs) <==> load.rest.Some? && Skip(load.rest.value) == ""
    ensures forall ps | Closes(s1, ps) :: ps == pairs
  {
    hide Skip, Begins, PairsThen, ReadMembers;
    forall x ensures !Begins(s1, "}", x) {
      ClosingBrace(s1, x);
    }
    forall x ensures Skip(x) == "" <==> AllWhitespace(x) {
      BlankExactly(x);
    }
    forall ps | Closes(s1, ps) ensures ps == pairs {
      var s2, rest :| (if ps == [] then s2 == s1 else PairsThen(s1, ps, s2)) && Begins(s2, "}", rest) &&
                      AllWhitespace(rest);
      assert ps != [] && ps <= pairs;
      if pairs == [] {
        NoPairs(s1, s2);
      }
      ClosedIsLongest(s1, ps, s2, rest, pairs);
    }
    if Closes(s1, pairs) {
      var s2, rest :| (if pairs == [] then s2 == s1 else PairsThen(s1, pairs, s2)) && Begins(s2, "}", rest) &&
                      AllWhitespace(rest);
      assert ReadMembers(s1, data).rest == Some(rest);
    }
    forall s2 ensures pairs == [] ==> !PairsThen(s1, pairs, s2) {
      NoPairs(s1, s2);
    }
  }

  /** A list followed by a closing brace is not the front of a longer one. */
  lemma {:induction false} ClosedIsLongest(s: string, ps: Pairs, s2: string, rest: string, pairs: Pairs)
    requires PairsThen(s, ps, s2) && Begins(s2, "}", rest) && ps <= pairs
    requires Stands(s, pairs)
    ensures ps == pairs
    decreases |ps|
  {
    hide PairsThen, Begins, ReadPair, Skip;
    var r :| PairsThen(s, pairs, r);
    FirstPair(s, ps, s2);
    var s1 :| ReadPair(s) == Some((ps[0].0, ps[0].1, s1));
    PairsAfter(s, ps[0].0, ps[0].1, s1, ps, s2);
    PairsAfter(s, ps[0].0, ps[0].1, s1, pairs, r);
    if |ps| == 1 {
      ClosingBrace(s1, rest);
    } else {
      assert ps[1..] <= pairs[1..];
      ClosedIsLongest(Skip(s1)[1..], ps[1..], s2, rest, pairs[1..]);
      assert ps == [ps[0]] + ps[1..] && pairs == [pairs[0]] + pairs[1..];
    }
  }
}
