/** The store written out as JSON and read back in. */
module StoreJson {
  import opened Text
  import opened Serialise
  import opened Store

  /** A `ForEach` order: every pair of the map, once each, in any order. */
  type Pairs = seq<(string, Entry)>

  ghost predicate IsOrderOf(pairs: Pairs, data: Data) {
    && (forall i | 0 <= i < |pairs| :: pairs[i].0 in data && data[pairs[i].0] == pairs[i].1)
    && (forall i, j | 0 <= i < j < |pairs| :: pairs[i].0 != pairs[j].0)
    && |pairs| == |data|
  }

  // ---- Writing ----

  function ValueJson(value: Option<string>): string {
    if value.Some? then JsonString(value.value) else "null"
  }

  function PairJson(key: string, e: Entry): string {
    JsonString(key) + ":{\"value\":" + ValueJson(e.value) + ",\"expiry\":" + ToString(e.expiry) + "}"
  }

  function MembersJson(pairs: Pairs): string {
    if pairs == [] then ""
    else if |pairs| == 1 then PairJson(pairs[0].0, pairs[0].1)
    else PairJson(pairs[0].0, pairs[0].1) + "," + MembersJson(pairs[1..])
  }

  function Serialised(pairs: Pairs): string {
    "{" + MembersJson(pairs) + "}"
  }

  // ---- Reading ----

  /** The next character after white space must be `c`. */
  function Expect(s: string, c: char): (r: Option<string>)
    ensures r.Some? ==> |r.value| < |s|
  {
    var t := Skip(s);
    if t != "" && t[0] == c then Some(t[1..]) else None
  }

  /** The next thing after white space must be the name `name`. */
  function ExpectName(s: string, name: string): (r: Option<string>)
    ensures r.Some? ==> |r.value| < |s|
  {
    match ReadString(Skip(s))
    case None => None
    case Some((n, rest)) => if n == name then Some(rest) else None
  }

  function ReadValue(s: string): (r: Option<(Option<string>, string)>)
    ensures r.Some? ==> |r.value.1| < |s|
  {
    var t := Skip(s);
    if "null" <= t then Some((None, t[4..]))
    else
      match ReadString(t)
      case None => None
      case Some((v, rest)) => Some((Some(v), rest))
  }

  /** A name, then a colon. */
  function ReadLabel(s: string, name: string): (r: Option<string>)
    ensures r.Some? ==> |r.value| < |s|
  {
    match ExpectName(s, name)
    case None => None
    case Some(rest) => Expect(rest, ':')
  }

  function ReadExpiry(s: string): (r: Option<(int, string)>)
    ensures r.Some? ==> |r.value.1| < |s|
  {
    match ReadLabel(s, "expiry")
    case None => None
    case Some(s1) =>
      match ReadInteger(Skip(s1))
      case None => None
      case Some((n, s2)) =>
        match Expect(s2, '}')
        case None => None
        case Some(s3) => Some((n, s3))
  }

  /** An entry starts right here, with no white space before its brace. */
  function ReadEntry(s: string): (r: Option<(Entry, string)>)
    ensures r.Some? ==> |r.value.1| < |s|
  {
    if s == "" || s[0] != '{' then None else ReadFields(s[1..])
  }

  function ReadFields(s: string): (r: Option<(Entry, string)>)
    ensures r.Some? ==> |r.value.1| < |s|
  {
    match ReadLabel(s, "value")
    case None => None
    case Some(s2) =>
      match ReadValue(s2)
      case None => None
      case Some((value, s3)) =>
        match Expect(s3, ',')
        case None => None
        case Some(s4) =>
          match ReadExpiry(s4)
          case None => None
          case Some((expiry, s5)) => Some((Entry(value, expiry), s5))
  }

  function ReadPair(s: string): (r: Option<(string, Entry, string)>)
    ensures r.Some? ==> |r.value.2| < |s|
  {
    match ReadString(Skip(s))
    case None => None
    case Some((key, s1)) =>
      match Expect(s1, ':')
      case None => None
      case Some(s2) =>
        match ReadEntry(Skip(s2))
        case None => None
        case Some((e, s3)) => Some((key, e, s3))
  }

  /** A load: what the store holds afterwards, and the text left; `None` when the
      reader threw, in which case the pairs read before that stay in the store. */
  datatype Load = Load(data: Data, rest: Option<string>)

  function ReadMembers(s: string, data: Data): (r: Load)
    decreases |s|
  {
    match ReadPair(s)
    case None => Load(data, None)
    case Some((key, e, s1)) =>
      var data' := data[key := e];
      var t := Skip(s1);
      if t == "" then Load(data', None)
      else if t[0] == ',' then ReadMembers(t[1..], data')
      else if t[0] == '}' then Load(data', Some(t[1..]))
      else Load(data', None)
  }

  function ReadObject(s: string, data: Data): Load {
    match Expect(s, '{')
    case None => Load(data, None)
    case Some(s1) =>
      var t := Skip(s1);
      if t != "" && t[0] == '}' then Load(data, Some(t[1..])) else ReadMembers(s1, data)
  }

  /** The whole text must be one object. */
  function Deserialised(s: string, data: Data): (Data, bool) {
    var r := ReadObject(s, data);
    (r.data, r.rest.Some? && Skip(r.rest.value) == "")
  }

  // ---- Tokens with any white space between them ----

  function PairTokens(key: string, e: Entry): seq<string> {
    [JsonString(key), ":", "{", JsonString("value"), ":", ValueJson(e.value), ",",
     JsonString("expiry"), ":", ToString(e.expiry), "}"]
  }

  function MemberTokens(pairs: Pairs): seq<string> {
    if pairs == [] then []
    else if |pairs| == 1 then PairTokens(pairs[0].0, pairs[0].1)
    else PairTokens(pairs[0].0, pairs[0].1) + [","] + MemberTokens(pairs[1..])
  }

  function ObjectTokens(pairs: Pairs): seq<string> {
    ["{"] + MemberTokens(pairs) + ["}"]
  }

  /** A gap before every token and one at the end. */
  predicate AreGaps(gaps: seq<string>, tokens: seq<string>) {
    |gaps| == |tokens| + 1 && forall i | 0 <= i < |gaps| :: AllWhitespace(gaps[i])
  }

  function Spaced(tokens: seq<string>, gaps: seq<string>): string
    requires |gaps| == |tokens| + 1
  {
    if tokens == [] then gaps[0] else gaps[0] + tokens[0] + Spaced(tokens[1..], gaps[1..])
  }

  /** The text from token `k` on. */
  function From(tokens: seq<string>, gaps: seq<string>, k: nat): string
    requires |gaps| == |tokens| + 1 && k <= |tokens|
  {
    Spaced(tokens[k..], gaps[k..])
  }

  lemma FromNext(tokens: seq<string>, gaps: seq<string>, k: nat)
    requires |gaps| == |tokens| + 1 && k < |tokens|
    ensures From(tokens, gaps, k) == gaps[k] + (tokens[k] + From(tokens, gaps, k + 1))
  {
    assert tokens[k..][1..] == tokens[k + 1..] && gaps[k..][1..] == gaps[k + 1..];
  }

  /** Tokens never start with white space, so a reader skips exactly the gap. */
  lemma SkipToToken(tokens: seq<string>, gaps: seq<string>, k: nat)
    requires AreGaps(gaps, tokens) && k < |tokens|
    requires tokens[k] != "" && !IsWhitespace(tokens[k][0])
    ensures Skip(From(tokens, gaps, k)) == tokens[k] + From(tokens, gaps, k + 1)
  {
    FromNext(tokens, gaps, k);
    SkipGap(gaps[k], tokens[k] + From(tokens, gaps, k + 1));
  }

  lemma CharToken(tokens: seq<string>, gaps: seq<string>, k: nat, c: char)
    requires AreGaps(gaps, tokens) && k < |tokens| && tokens[k] == [c] && !IsWhitespace(c)
    ensures Expect(From(tokens, gaps, k), c) == Some(From(tokens, gaps, k + 1))
    ensures var t := Skip(From(tokens, gaps, k));
      t != "" && t[0] == c && t[1..] == From(tokens, gaps, k + 1)
  {
    SkipToToken(tokens, gaps, k);
  }

  lemma StringToken(tokens: seq<string>, gaps: seq<string>, k: nat, v: string)
    requires AreGaps(gaps, tokens) && k < |tokens| && tokens[k] == JsonString(v)
    ensures ReadString(Skip(From(tokens, gaps, k))) == Some((v, From(tokens, gaps, k + 1)))
    ensures !("null" <= Skip(From(tokens, gaps, k)))
  {
    SkipToToken(tokens, gaps, k);
    StringRoundTrip(v, From(tokens, gaps, k + 1));
  }

  lemma LabelTokens(tokens: seq<string>, gaps: seq<string>, k: nat, name: string)
    requires AreGaps(gaps, tokens) && k + 1 < |tokens| && tokens[k] == JsonString(name) && tokens[k + 1] == ":"
    ensures ReadLabel(From(tokens, gaps, k), name) == Some(From(tokens, gaps, k + 2))
  {
    StringToken(tokens, gaps, k, name);
    CharToken(tokens, gaps, k + 1, ':');
  }

  lemma ValueToken(tokens: seq<string>, gaps: seq<string>, k: nat, value: Option<string>)
    requires AreGaps(gaps, tokens) && k < |tokens| && tokens[k] == ValueJson(value)
    ensures ReadValue(From(tokens, gaps, k)) == Some((value, From(tokens, gaps, k + 1)))
  {
    if value.Some? {
      StringToken(tokens, gaps, k, value.value);
    } else {
      SkipToToken(tokens, gaps, k);
    }
  }

  lemma IntegerToken(tokens: seq<string>, gaps: seq<string>, k: nat, n: int)
    requires AreGaps(gaps, tokens) && k + 1 < |tokens| && tokens[k] == ToString(n) && IsInt64(n)
    requires tokens[k + 1] != "" && !IsDigit(tokens[k + 1][0])
    ensures ReadInteger(Skip(From(tokens, gaps, k))) == Some((n, From(tokens, gaps, k + 1)))
  {
    SkipToToken(tokens, gaps, k);
    var rest := From(tokens, gaps, k + 1);
    FromNext(tokens, gaps, k + 1);
    assert rest != "" && !IsDigit(rest[0]) by {
      if gaps[k + 1] != "" {
        assert rest[0] == gaps[k + 1][0] && IsWhitespace(gaps[k + 1][0]);
      } else {
        assert rest[0] == tokens[k + 1][0];
      }
    }
    IntegerRoundTrip(n, rest);
  }

  /** The eleven tokens of one pair, starting at token `k`. */
  lemma EntryAfterGap(s: string)
    ensures ReadEntry(Skip(s)) == match Expect(s, '{') case None => None case Some(t) => ReadFields(t)
  {
  }

  lemma PairReads(tokens: seq<string>, gaps: seq<string>, k: nat, key: string, e: Entry)
    requires AreGaps(gaps, tokens) && k + 11 <= |tokens| && tokens[k..k + 11] == PairTokens(key, e)
    requires IsInt64(e.expiry)
    ensures ReadPair(From(tokens, gaps, k)) == Some((key, e, From(tokens, gaps, k + 11)))
  {
    PairStarts(tokens, k, key, e);
    PairHead(tokens, gaps, k, key);
    FieldsRead(tokens, gaps, k, key, e);
    hide ReadFields, ReadEntry, ReadString, Skip, Expect, From, PairTokens;
    PairFrom(From(tokens, gaps, k), key, From(tokens, gaps, k + 1), From(tokens, gaps, k + 2),
             From(tokens, gaps, k + 3), e, From(tokens, gaps, k + 11));
  }

  lemma PairHead(tokens: seq<string>, gaps: seq<string>, k: nat, key: string)
    requires AreGaps(gaps, tokens) && k + 3 <= |tokens|
    requires tokens[k] == JsonString(key) && tokens[k + 1] == ":" && tokens[k + 2] == "{"
    ensures ReadString(Skip(From(tokens, gaps, k))) == Some((key, From(tokens, gaps, k + 1)))
    ensures Expect(From(tokens, gaps, k + 1), ':') == Some(From(tokens, gaps, k + 2))
    ensures Expect(From(tokens, gaps, k + 2), '{') == Some(From(tokens, gaps, k + 3))
  {
    hide ReadString, Skip, Expect, From, JsonString;
    StringToken(tokens, gaps, k, key);
    CharToken(tokens, gaps, k + 1, ':');
    CharToken(tokens, gaps, k + 2, '{');
  }

  lemma PairFrom(s: string, key: string, s1: string, s2: string, s3: string, e: Entry, rest: string)
    requires ReadString(Skip(s)) == Some((key, s1)) && Expect(s1, ':') == Some(s2)
    requires Expect(s2, '{') == Some(s3) && ReadFields(s3) == Some((e, rest))
    ensures ReadPair(s) == Some((key, e, rest))
  {
    hide ReadString, Skip, Expect, ReadEntry, ReadFields;
    EntryAfterGap(s2);
  }

  lemma PairStarts(tokens: seq<string>, k: nat, key: string, e: Entry)
    requires k + 11 <= |tokens| && tokens[k..k + 11] == PairTokens(key, e)
    ensures tokens[k] == JsonString(key) && tokens[k + 1] == ":" && tokens[k + 2] == "{"
  {
    hide JsonString, ValueJson, ToString;
    var p := PairTokens(key, e);
    assert tokens[k..k + 11][0] == tokens[k] && tokens[k..k + 11][1] == tokens[k + 1];
    assert tokens[k..k + 11][2] == tokens[k + 2];
  }

  lemma FieldsRead(tokens: seq<string>, gaps: seq<string>, k: nat, key: string, e: Entry)
    requires AreGaps(gaps, tokens) && k + 11 <= |tokens| && tokens[k..k + 11] == PairTokens(key, e)
    requires IsInt64(e.expiry)
    ensures ReadFields(From(tokens, gaps, k + 3)) == Some((e, From(tokens, gaps, k + 11)))
  {
    hide From, JsonString, ValueJson, ToString, Skip, ReadString, ReadInteger, Expect, ReadLabel, ReadValue, AreGaps;
    var p := PairTokens(key, e);
    assert forall j | 0 <= j < 11 :: tokens[k + j] == p[j];
    LabelTokens(tokens, gaps, k + 3, "value");
    ValueToken(tokens, gaps, k + 5, e.value);
    CharToken(tokens, gaps, k + 6, ',');
    LabelTokens(tokens, gaps, k + 7, "expiry");
    IntegerToken(tokens, gaps, k + 9, e.expiry);
    CharToken(tokens, gaps, k + 10, '}');
  }

  // ---- Reading undoes writing ----

  /** The old pairs overridden by the new ones, the last of any duplicates winning. */
  function Override(data: Data, pairs: Pairs): Data
    decreases |pairs|
  {
    if pairs == [] then data else Override(data[pairs[0].0 := pairs[0].1], pairs[1..])
  }

  predicate ExpiriesFit(pairs: Pairs) {
    forall i | 0 <= i < |pairs| :: IsInt64(pairs[i].1.expiry)
  }

  lemma {:induction false} MembersRead(pairs: Pairs, tokens: seq<string>, gaps: seq<string>, k: nat, data: Data)
    requires pairs != [] && ExpiriesFit(pairs)
    requires AreGaps(gaps, tokens) && k <= |tokens| && tokens[k..] == MemberTokens(pairs) + ["}"]
    ensures ReadMembers(From(tokens, gaps, k), data)
         == Load(Override(data, pairs), Some(From(tokens, gaps, |tokens|)))
    decreases |pairs|
  {
    hide From, Skip, ReadPair, AreGaps, PairTokens;
    var (key, e) := pairs[0];
    PairHasEleven(key, e);
    assert tokens[k..][..11] == PairTokens(key, e) && tokens[k..k + 11] == tokens[k..][..11];
    PairReads(tokens, gaps, k, key, e);
    assert tokens[k + 11] == tokens[k..][11];
    if |pairs| == 1 {
      assert |tokens| == k + 12;
      CharToken(tokens, gaps, k + 11, '}');
    } else {
      CharToken(tokens, gaps, k + 11, ',');
      assert tokens[k + 12..] == tokens[k..][12..];
      assert tokens[k..][12..] == MemberTokens(pairs[1..]) + ["}"];
      MembersRead(pairs[1..], tokens, gaps, k + 12, data[key := e]);
    }
  }

  lemma PairHasEleven(key: string, e: Entry)
    ensures |PairTokens(key, e)| == 11
  {
  }

  /** Whatever white space stands between the tokens, and whatever the store held
      before: the load succeeds and overrides pair by pair. */
  lemma SpacedTextLoads(pairs: Pairs, gaps: seq<string>, data: Data)
    requires ExpiriesFit(pairs) && AreGaps(gaps, ObjectTokens(pairs))
    ensures Deserialised(Spaced(ObjectTokens(pairs), gaps), data) == (Override(data, pairs), true)
  {
    hide Skip, ReadMembers, ReadPair, PairTokens;
    var tokens := ObjectTokens(pairs);
    assert tokens[0..] == tokens && gaps[0..] == gaps;
    assert Spaced(tokens, gaps) == From(tokens, gaps, 0);
    CharToken(tokens, gaps, 0, '{');
    if pairs == [] {
      CharToken(tokens, gaps, 1, '}');
    } else {
      var (key, e) := pairs[0];
      PairHasEleven(key, e);
      assert tokens[1..] == MemberTokens(pairs) + ["}"];
      FirstMember(pairs);
      assert tokens[1] == JsonString(key);
      SkipToToken(tokens, gaps, 1);
      MembersRead(pairs, tokens, gaps, 1, data);
    }
    var last := gaps[|tokens|];
    assert From(tokens, gaps, |tokens|) == last;
    SkipGap(last, "");
    assert last + "" == last;
  }

  lemma FirstMember(pairs: Pairs)
    requires pairs != []
    ensures MemberTokens(pairs) != [] && MemberTokens(pairs)[0] == JsonString(pairs[0].0)
  {
  }

  // ---- What the writer emits has no gaps ----

  function NoGaps(n: nat): (gaps: seq<string>)
  {
    seq(n + 1, _ => "")
  }

  function Join(tokens: seq<string>): string {
    if tokens == [] then "" else tokens[0] + Join(tokens[1..])
  }

  lemma {:induction false} SpacedWithoutGaps(tokens: seq<string>)
    ensures AreGaps(NoGaps(|tokens|), tokens)
    ensures Spaced(tokens, NoGaps(|tokens|)) == Join(tokens)
  {
    if tokens != [] {
      SpacedWithoutGaps(tokens[1..]);
      assert NoGaps(|tokens|)[1..] == NoGaps(|tokens[1..]|);
    }
  }

  lemma {:induction false} JoinAppend(a: seq<string>, b: seq<string>)
    ensures Join(a + b) == Join(a) + Join(b)
  {
    if a == [] {
      assert a + b == b;
    } else {
      assert (a + b)[1..] == a[1..] + b;
      JoinAppend(a[1..], b);
    }
  }

  lemma JoinOne(t: string)
    ensures Join([t]) == t
  {
    assert Join([t]) == t + Join([]);
  }

  lemma JoinPair(key: string, e: Entry)
    ensures Join(PairTokens(key, e)) == PairJson(key, e)
  {
    hide EscapeAll, ToString;
    var value, expiry := JsonString("value"), JsonString("expiry");
    assert EscapeAll("value") == "value" by { PlainText("value"); }
    assert EscapeAll("expiry") == "expiry" by { PlainText("expiry"); }
    var head, tail := [JsonString(key), ":", "{", value, ":", ValueJson(e.value)],
                      [",", expiry, ":", ToString(e.expiry), "}"];
    assert PairTokens(key, e) == head + tail;
    JoinAppend(head, tail);
    JoinSix(JsonString(key), ":", "{", value, ":", ValueJson(e.value));
    JoinFive(",", expiry, ":", ToString(e.expiry), "}");
    assert ":" + "{" + value + ":" == ":{\"value\":";
    assert "," + expiry + ":" == ",\"expiry\":";
    var k, v, x := JsonString(key), ValueJson(e.value), ToString(e.expiry);
    assert k + ":" + "{" + value + ":" + v == k + (":" + "{" + value + ":") + v;
    assert k + ":{\"value\":" + v + ("," + expiry + ":" + x + "}")
        == k + ":{\"value\":" + v + ("," + expiry + ":") + x + "}";
  }

  lemma JoinFive(a: string, b: string, c: string, d: string, e: string)
    ensures Join([a, b, c, d, e]) == a + b + c + d + e
  {
    JoinAppend([a, b], [c, d, e]);
    assert [a, b, c, d, e] == [a, b] + [c, d, e];
    JoinAppend([c], [d, e]);
    JoinAppend([a], [b]);
    JoinAppend([d], [e]);
    JoinOne(a); JoinOne(b); JoinOne(c); JoinOne(d); JoinOne(e);
    assert [a] + [b] == [a, b] && [d] + [e] == [d, e] && [c] + [d, e] == [c, d, e];
    assert (a + b) + (c + (d + e)) == a + b + c + d + e;
  }

  lemma JoinSix(a: string, b: string, c: string, d: string, e: string, f: string)
    ensures Join([a, b, c, d, e, f]) == a + b + c + d + e + f
  {
    JoinFive(a, b, c, d, e);
    JoinOne(f);
    JoinAppend([a, b, c, d, e], [f]);
    assert [a, b, c, d, e, f] == [a, b, c, d, e] + [f];
  }

  /** Text that needs no escaping is its own escape. */
  lemma {:induction false} PlainText(v: string)
    requires forall i | 0 <= i < |v| :: 'a' <= v[i] <= 'z'
    ensures EscapeAll(v) == v
  {
    if v != "" {
      PlainText(v[1..]);
      assert [v[0]] + v[1..] == v;
    }
  }

  lemma {:induction false} JoinMembers(pairs: Pairs)
    ensures Join(MemberTokens(pairs)) == MembersJson(pairs)
  {
    hide PairTokens, PairJson;
    if pairs != [] {
      var p := PairTokens(pairs[0].0, pairs[0].1);
      JoinPair(pairs[0].0, pairs[0].1);
      if |pairs| > 1 {
        JoinMembers(pairs[1..]);
        JoinOne(",");
        JoinAppend(p, [","]);
        JoinAppend(p + [","], MemberTokens(pairs[1..]));
      }
    }
  }

  lemma SerialisedIsSpaced(pairs: Pairs)
    ensures var tokens := ObjectTokens(pairs);
      AreGaps(NoGaps(|tokens|), tokens) && Serialised(pairs) == Spaced(tokens, NoGaps(|tokens|))
  {
    hide MemberTokens, MembersJson;
    SpacedWithoutGaps(ObjectTokens(pairs));
    JoinMembers(pairs);
    JoinOne("{");
    JoinOne("}");
    JoinAppend(["{"], MemberTokens(pairs));
    JoinAppend(["{"] + MemberTokens(pairs), ["}"]);
  }

  // ---- Snapshot, then restore ----

  lemma {:induction false} OverrideAt(data: Data, pairs: Pairs, key: string)
    requires forall i, j | 0 <= i < j < |pairs| :: pairs[i].0 != pairs[j].0
    ensures key in Override(data, pairs) <==> key in data || exists i | 0 <= i < |pairs| :: pairs[i].0 == key
    ensures forall i | 0 <= i < |pairs| && pairs[i].0 == key ::
      key in Override(data, pairs) && Override(data, pairs)[key] == pairs[i].1
    ensures key in data && (forall i | 0 <= i < |pairs| :: pairs[i].0 != key) ==>
      key in Override(data, pairs) && Override(data, pairs)[key] == data[key]
    decreases |pairs|
  {
    if pairs != [] {
      var rest := pairs[1..];
      OverrideAt(data[pairs[0].0 := pairs[0].1], rest, key);
      assert forall i | 0 <= i < |rest| :: rest[i] == pairs[i + 1];
      assert forall i | 0 < i < |pairs| :: pairs[i] == rest[i - 1];
    }
  }

  /** Every key of the map is visited: as many distinct keys as the map has. */
  lemma OrderCovers(pairs: Pairs, data: Data)
    requires IsOrderOf(pairs, data)
    ensures forall k | k in data :: exists i | 0 <= i < |pairs| :: pairs[i].0 == k
  {
    var seen := KeySet(pairs);
    KeySetSize(pairs);
    assert seen <= data.Keys;
    SubsetOfSameSize(seen, data.Keys);
  }

  function KeySet(pairs: Pairs): set<string> {
    set i | 0 <= i < |pairs| :: pairs[i].0
  }

  lemma KeySetFirst(pairs: Pairs)
    requires pairs != []
    ensures KeySet(pairs) == {pairs[0].0} + KeySet(pairs[1..])
    ensures (forall i | 0 < i < |pairs| :: pairs[0].0 != pairs[i].0) ==> pairs[0].0 !in KeySet(pairs[1..])
  {
    var rest := pairs[1..];
    forall k | k in KeySet(pairs) ensures k in {pairs[0].0} + KeySet(rest) {
      var i :| 0 <= i < |pairs| && pairs[i].0 == k;
      assert i > 0 ==> rest[i - 1].0 == k;
    }
    forall k | k in KeySet(rest) ensures exists i :: 0 < i < |pairs| && pairs[i].0 == k {
      var i :| 0 <= i < |rest| && rest[i].0 == k;
      assert pairs[i + 1].0 == k;
    }
  }

  lemma {:induction false} KeySetSize(pairs: Pairs)
    requires forall i, j | 0 <= i < j < |pairs| :: pairs[i].0 != pairs[j].0
    ensures |KeySet(pairs)| == |pairs|
  {
    if pairs != [] {
      hide KeySet;
      KeySetFirst(pairs);
      KeySetSize(pairs[1..]);
    }
  }

  lemma SubsetOfSameSize<T>(a: set<T>, b: set<T>)
    requires a <= b && |a| == |b|
    ensures a == b
  {
    assert |b - a| == |b| - |a|;
  }

  lemma OrderRebuilds(data: Data, pairs: Pairs)
    requires IsOrderOf(pairs, data)
    ensures Override(map[], pairs) == data
  {
    hide Override;
    OrderCovers(pairs, data);
    var d := Override(map[], pairs);
    forall k: string ensures (k in d <==> k in data) && (k in d && k in data ==> d[k] == data[k]) {
      OverrideAt(map[], pairs, k);
    }
  }

  /** A snapshot restores exactly: for every store and every order in which its
      entries are visited, the text it writes loads without error into an empty store
      and gives back the same keys, values and expiries. */
  lemma RestoreIsExact(data: Data, pairs: Pairs)
    requires IsOrderOf(pairs, data) && forall k | k in data :: IsInt64(data[k].expiry)
    ensures Deserialised(Serialised(pairs), map[]) == (data, true)
  {
    hide Serialised, Deserialised, Override, ObjectTokens, Spaced, NoGaps;
    SerialisedIsSpaced(pairs);
    SpacedTextLoads(pairs, NoGaps(|ObjectTokens(pairs)|), map[]);
    OrderRebuilds(data, pairs);
  }

  // ---- As the code runs ----

  /** `order` has visited every key of `data` but those in `left`, once each. */
  ghost predicate Visited(order: Pairs, data: Data, left: set<string>) {
    && left <= data.Keys
    && KeySet(order) == data.Keys - left
    && |order| + |left| == |data|
    && (forall i | 0 <= i < |order| :: order[i].0 in data && data[order[i].0] == order[i].1)
    && (forall i, j | 0 <= i < j < |order| :: order[i].0 != order[j].0)
  }

  lemma VisitNext(order: Pairs, data: Data, left: set<string>, key: string)
    requires Visited(order, data, left) && key in left
    ensures Visited(order + [(key, data[key])], data, left - {key})
  {
    KeySetAppend(order, key, data[key]);
    assert data.Keys - (left - {key}) == (data.Keys - left) + {key};
    assert forall i | 0 <= i < |order| :: order[i].0 in KeySet(order);
  }

  lemma VisitEnds(data: Data)
    ensures Visited([], data, data.Keys) && MembersJson([]) == ""
    ensures forall order | Visited(order, data, {}) :: IsOrderOf(order, data)
  {
  }

  /** The text written is that of some visit of the store, so it loads back to the store. */
  method SerialiseToJson(store: Store) returns (out: string)
    ensures exists order :: IsOrderOf(order, store.data) && out == Serialised(order)
    ensures (forall k | k in store.data :: IsInt64(store.data[k].expiry)) ==>
      Deserialised(out, map[]) == (store.data, true)
  {
    hide PairJson, MembersJson, Visited, IsOrderOf, Deserialised;
    VisitEnds(store.data);
    out := "{";
    ghost var order := [];
    var first := true;
    var left := store.data.Keys;
    while left != {}
      invariant left <= store.data.Keys && Visited(order, store.data, left)
      invariant first <==> order == []
      invariant out == "{" + MembersJson(order)
      decreases |left|
    {
      var key :| key in left;
      var entry := store.data[key];
      MembersAppend(order, key, entry);
      VisitNext(order, store.data, left, key);
      ghost var text := MembersJson(order);
      if !first {
        out := out + ",";
      }
      first := false;
      out := AppendPair(key, entry, out);
      assert "{" + text + "," + PairJson(key, entry) == "{" + (text + "," + PairJson(key, entry));
      order := order + [(key, entry)];
      left := left - {key};
    }
    out := out + "}";
    assert out == Serialised(order);
    if forall k | k in store.data :: IsInt64(store.data[k].expiry) {
      RestoreIsExact(store.data, order);
    }
  }

  method AppendPair(key: string, entry: Entry, out: string) returns (r: string)
    ensures r == out + PairJson(key, entry)
  {
    r := AppendJsonString(key, out);
    r := r + ":{\"value\":";
    if entry.value.Some? {
      r := AppendJsonString(entry.value.value, r);
    } else {
      r := r + "null";
    }
    r := r + ",\"expiry\":";
    r := r + ToString(entry.expiry);
    r := r + "}";
    PairAppend(out, JsonString(key), ValueJson(entry.value), ToString(entry.expiry));
  }

  lemma PairAppend(out: string, key: string, value: string, expiry: string)
    ensures out + key + ":{\"value\":" + value + ",\"expiry\":" + expiry + "}"
         == out + (key + ":{\"value\":" + value + ",\"expiry\":" + expiry + "}")
  {
  }

  lemma KeySetAppend(pairs: Pairs, key: string, e: Entry)
    ensures KeySet(pairs + [(key, e)]) == KeySet(pairs) + {key}
  {
    var longer := pairs + [(key, e)];
    forall k | k in KeySet(pairs) + {key} ensures k in KeySet(longer) {
      if k in KeySet(pairs) {
        var i :| 0 <= i < |pairs| && pairs[i].0 == k;
        assert longer[i].0 == k;
      } else {
        assert longer[|pairs|].0 == k;
      }
    }
  }

  lemma {:induction false} MembersAppend(pairs: Pairs, key: string, e: Entry)
    ensures MembersJson(pairs + [(key, e)]) ==
      if pairs == [] then PairJson(key, e) else MembersJson(pairs) + "," + PairJson(key, e)
  {
    hide PairJson;
    var longer := pairs + [(key, e)];
    if pairs != [] {
      MembersAppend(pairs[1..], key, e);
      assert longer[1..] == pairs[1..] + [(key, e)];
    }
  }

  /** Where the text left by `Expect` starts, as a position. */
  method ExpectAt(data: string, start: nat, c: char) returns (r: Option<nat>)
    requires start <= |data|
    ensures r.Some? <==> Expect(data[start..], c).Some?
    ensures r.Some? ==> start < r.value <= |data| && data[r.value..] == Expect(data[start..], c).value
  {
    var pos := SkipWhitespace(data, start);
    if pos >= |data| || data[pos] != c {
      return None;
    }
    assert data[pos..][1..] == data[pos + 1..];
    r := Some(pos + 1);
  }

  method ParseLabel(data: string, start: nat, name: string) returns (r: Option<nat>)
    requires start <= |data|
    ensures r.Some? <==> ReadLabel(data[start..], name).Some?
    ensures r.Some? ==> start < r.value <= |data| && data[r.value..] == ReadLabel(data[start..], name).value
  {
    var pos := SkipWhitespace(data, start);
    var found := ParseJsonString(data, pos);
    if found.None? || found.value.0 != name {
      return None;
    }
    r := ExpectAt(data, found.value.1, ':');
  }

  method ParseValue(data: string, start: nat) returns (r: Option<(Option<string>, nat)>)
    requires start <= |data|
    ensures Matches(r, data, start, ReadValue(data[start..]))
  {
    var pos := SkipWhitespace(data, start);
    if "null" <= data[pos..] {
      assert data[pos..][4..] == data[pos + 4..];
      return Some((None, pos + 4));
    }
    var found := ParseJsonString(data, pos);
    if found.None? {
      return None;
    }
    r := Some((Some(found.value.0), found.value.1));
  }

  method ParseExpiry(data: string, start: nat) returns (r: Option<(int, nat)>)
    requires start <= |data|
    ensures Matches(r, data, start, ReadExpiry(data[start..]))
  {
    hide ReadLabel, ReadInteger, Expect;
    var name := ParseLabel(data, start, "expiry");
    if name.None? {
      return None;
    }
    var pos := SkipWhitespace(data, name.value);
    var number := ParseJsonInteger(data, pos);
    if number.None? {
      return None;
    }
    var end := ExpectAt(data, number.value.1, '}');
    r := if end.None? then None else Some((number.value.0, end.value));
  }

  method ParseEntryJson(data: string, start: nat) returns (r: Option<(Entry, nat)>)
    requires start <= |data|
    ensures Matches(r, data, start, ReadEntry(data[start..]))
  {
    hide ReadLabel, ReadValue, ReadExpiry, Expect;
    if start >= |data| || data[start] != '{' {
      return None;
    }
    assert data[start..][1..] == data[start + 1..];
    var name := ParseLabel(data, start + 1, "value");
    if name.None? {
      return None;
    }
    var value := ParseValue(data, name.value);
    if value.None? {
      return None;
    }
    var comma := ExpectAt(data, value.value.1, ',');
    if comma.None? {
      return None;
    }
    var expiry := ParseExpiry(data, comma.value);
    r := if expiry.None? then None else Some((Entry(value.value.0, expiry.value.0), expiry.value.1));
  }

  method ParsePair(data: string, start: nat) returns (r: Option<(string, Entry, nat)>)
    requires start <= |data|
    ensures r.Some? <==> ReadPair(data[start..]).Some?
    ensures r.Some? ==> var (key, e, rest) := ReadPair(data[start..]).value;
      start <= r.value.2 <= |data| && r.value.0 == key && r.value.1 == e && data[r.value.2..] == rest
  {
    hide ReadEntry, Expect;
    var pos := SkipWhitespace(data, start);
    var key := ParseJsonString(data, pos);
    if key.None? {
      return None;
    }
    var colon := ExpectAt(data, key.value.1, ':');
    if colon.None? {
      return None;
    }
    pos := SkipWhitespace(data, colon.value);
    var entry := ParseEntryJson(data, pos);
    r := if entry.None? then None else Some((key.value.0, entry.value.0, entry.value.1));
  }

  /** Reads the text into the store. False is a thrown `std::invalid_argument`, which
      leaves the pairs read so far in place. */
  method DeserialiseFromJson(store: Store, json: string) returns (ok: bool)
    modifies store
    ensures (store.data, ok) == Deserialised(json, old(store.data))
  {
    hide ReadPair;
    assert json[0..] == json;
    var open := ExpectAt(json, 0, '{');
    if open.None? {
      return false;
    }
    var pos := SkipWhitespace(json, open.value);
    if pos < |json| && json[pos] == '}' {
      assert json[pos..][1..] == json[pos + 1..];
      pos := pos + 1;
    } else {
      pos := open.value;
      ghost var load := ReadMembers(json[pos..], store.data);
      var more := true;
      while more
        invariant pos <= |json|
        invariant more ==> ReadMembers(json[pos..], store.data) == load
        invariant !more ==> load == Load(store.data, Some(json[pos..]))
        decreases more, |json| - pos
      {
        var pair := ParsePair(json, pos);
        if pair.None? {
          return false;
        }
        store.data := store.data[pair.value.0 := pair.value.1];
        var next := SkipWhitespace(json, pair.value.2);
        if next >= |json| {
          return false;
        }
        assert json[next..][1..] == json[next + 1..];
        if json[next] == ',' {
          pos := next + 1;
        } else if json[next] == '}' {
          pos := next + 1;
          more := false;
        } else {
          return false;
        }
      }
    }
    pos := SkipWhitespace(json, pos);
    ok := pos == |json|;
  }
}
