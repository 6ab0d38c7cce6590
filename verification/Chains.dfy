/** The chained hash map on values: each bucket's list as a sequence of pairs, compared
    with a mathematical map. `ChainedMap` shows the linked nodes do the same. */
module Chains {
  import opened Text

  type Chain<K, V> = seq<(K, V)>

  datatype Table<K, V> = Table(buckets: seq<Chain<K, V>>, size: nat)

  type Hash<!K> = K -> nat

  function Bucket<K>(hash: Hash<K>, key: K, cap: nat): (i: nat)
    requires cap > 0
    ensures i < cap
  {
    hash(key) % cap
  }

  // ---- One chain ----

  /** The position of `key`, or the chain's length. */
  function IndexOf<K(==), V>(c: Chain<K, V>, key: K): (i: nat)
    ensures i <= |c|
    ensures i < |c| ==> c[i].0 == key
    ensures forall j | 0 <= j < i :: c[j].0 != key
  {
    if c == [] || c[0].0 == key then 0 else IndexOf(c[1..], key) + 1
  }

  predicate Has<K(==), V>(c: Chain<K, V>, key: K) {
    IndexOf(c, key) < |c|
  }

  /** Replace the value in place, or append at the end. */
  function Put<K(==), V>(c: Chain<K, V>, key: K, value: V): Chain<K, V> {
    if Has(c, key) then c[IndexOf(c, key) := (key, value)] else c + [(key, value)]
  }

  function Cut<K(==), V>(c: Chain<K, V>, key: K): Chain<K, V> {
    var i := IndexOf(c, key);
    if i < |c| then c[..i] + c[i + 1..] else c
  }

  // ---- The table ----

  function PutIn<K(==), V>(hash: Hash<K>, t: Table<K, V>, key: K, value: V): (r: Table<K, V>)
    requires |t.buckets| > 0
    ensures |r.buckets| == |t.buckets|
  {
    var b := Bucket(hash, key, |t.buckets|);
    Table(t.buckets[b := Put(t.buckets[b], key, value)],
          if Has(t.buckets[b], key) then t.size else t.size + 1)
  }

  function PutAll<K(==), V>(hash: Hash<K>, t: Table<K, V>, pairs: seq<(K, V)>): (r: Table<K, V>)
    requires |t.buckets| > 0
    ensures |r.buckets| == |t.buckets|
    decreases |pairs|
  {
    if pairs == [] then t else PutAll(hash, PutIn(hash, t, pairs[0].0, pairs[0].1), pairs[1..])
  }

  /** Every pair, bucket by bucket, each chain from its front: the order of `ForEach`. */
  function Flat<K, V>(buckets: seq<Chain<K, V>>): seq<(K, V)> {
    if buckets == [] then [] else buckets[0] + Flat(buckets[1..])
  }

  function Blank<K, V>(n: nat): Table<K, V> {
    Table(seq(n, _ => []), 0)
  }

  function Max(a: nat, b: nat): nat {
    if a < b then b else a
  }

  function Grown<K(==), V>(hash: Hash<K>, t: Table<K, V>): Table<K, V> {
    PutAll(hash, Blank(Max(2, 2 * t.size)), Flat(t.buckets))
  }

  predicate NeedsGrowing<K, V>(t: Table<K, V>) {
    |t.buckets| == 0 || 4 * t.size > 3 * |t.buckets|
  }

  function Inserted<K(==), V>(hash: Hash<K>, t: Table<K, V>, key: K, value: V): Table<K, V> {
    PutIn(hash, if NeedsGrowing(t) then Grown(hash, t) else t, key, value)
  }

  function Removed<K(==), V>(hash: Hash<K>, t: Table<K, V>, key: K): Table<K, V> {
    if |t.buckets| == 0 then t
    else
      var b := Bucket(hash, key, |t.buckets|);
      if Has(t.buckets[b], key) && t.size > 0
      then Table(t.buckets[b := Cut(t.buckets[b], key)], t.size - 1)
      else t
  }

  function Found<K(==), V>(hash: Hash<K>, t: Table<K, V>, key: K): Option<V> {
    if |t.buckets| == 0 then None
    else
      var c := t.buckets[Bucket(hash, key, |t.buckets|)];
      if Has(c, key) then Some(c[IndexOf(c, key)].1) else None
  }

  // ---- Against a mathematical map ----

  ghost predicate Distinct<K, V>(c: seq<(K, V)>) {
    forall i, j | 0 <= i < j < |c| :: c[i].0 != c[j].0
  }

  /** Bucket `b` holds exactly the pairs of `m` that hash to it, each once. */
  ghost predicate Right<K, V>(hash: Hash<K>, c: Chain<K, V>, b: nat, cap: nat, m: map<K, V>)
    requires cap > 0
  {
    && Distinct(c)
    && (forall i | 0 <= i < |c| :: Bucket(hash, c[i].0, cap) == b && c[i].0 in m && m[c[i].0] == c[i].1)
    && (forall k | k in m && Bucket(hash, k, cap) == b :: (k, m[k]) in c)
  }

  ghost predicate Represents<K, V>(hash: Hash<K>, t: Table<K, V>, m: map<K, V>) {
    && t.size == |m|
    && (forall b: nat | b < |t.buckets| :: Right(hash, t.buckets[b], b, |t.buckets|, m))
    && (|t.buckets| == 0 ==> m == map[])
  }

  lemma PutRight<K, V>(hash: Hash<K>, c: Chain<K, V>, b: nat, cap: nat, m: map<K, V>, key: K, value: V)
    requires cap > 0 && Right(hash, c, b, cap, m) && Bucket(hash, key, cap) == b
    ensures Right(hash, Put(c, key, value), b, cap, m[key := value])
    ensures Has(c, key) <==> key in m
  {
    var c', m' := Put(c, key, value), m[key := value];
    if key in m {
      var i :| 0 <= i < |c| && c[i] == (key, m[key]);
    }
    forall k | k in m' && Bucket(hash, k, cap) == b ensures (k, m'[k]) in c' {
      if k == key {
        assert c'[if Has(c, key) then IndexOf(c, key) else |c|] == (key, value);
      } else {
        var i :| 0 <= i < |c| && c[i] == (k, m[k]);
        assert c'[i] == c[i];
      }
    }
  }

  lemma PutInRefines<K, V>(hash: Hash<K>, t: Table<K, V>, m: map<K, V>, key: K, value: V)
    requires Represents(hash, t, m) && |t.buckets| > 0
    ensures Represents(hash, PutIn(hash, t, key, value), m[key := value])
  {
    var cap, b := |t.buckets|, Bucket(hash, key, |t.buckets|);
    assert Right(hash, t.buckets[b], b, cap, m);
    PutRight(hash, t.buckets[b], b, cap, m, key, value);
    var t' := PutIn(hash, t, key, value);
    forall x: nat | x < cap ensures Right(hash, t'.buckets[x], x, cap, m[key := value]) {
      assert Right(hash, t.buckets[x], x, cap, m);
    }
    assert m[key := value].Keys == m.Keys + {key};
  }

  lemma CutRight<K, V>(hash: Hash<K>, c: Chain<K, V>, b: nat, cap: nat, m: map<K, V>, key: K)
    requires cap > 0 && Right(hash, c, b, cap, m) && Bucket(hash, key, cap) == b
    ensures Right(hash, Cut(c, key), b, cap, m - {key})
    ensures Has(c, key) <==> key in m
  {
    HasExactly(hash, c, b, cap, m, key);
    CutKeepsOthers(hash, c, b, cap, m, key);
    var c' := Cut(c, key);
    CutIsDistinct(c, key);
    forall i | 0 <= i < |c'|
      ensures Bucket(hash, c'[i].0, cap) == b && c'[i].0 in m - {key} && (m - {key})[c'[i].0] == c'[i].1
    {
      var j := CutFrom(c, key, i);
    }
  }

  /** Where an element of the cut chain was before, and that it is not of the key. */
  lemma CutFrom<K, V>(c: Chain<K, V>, key: K, i: nat) returns (j: nat)
    requires Distinct(c) && i < |Cut(c, key)|
    ensures i <= j < |c| && j == (if i < IndexOf(c, key) then i else i + 1) && Cut(c, key)[i] == c[j] && c[j].0 != key
  {
    j := if i < IndexOf(c, key) then i else i + 1;
  }

  lemma CutIsDistinct<K, V>(c: Chain<K, V>, key: K)
    requires Distinct(c)
    ensures Distinct(Cut(c, key))
  {
    forall i, k | 0 <= i < k < |Cut(c, key)| ensures Cut(c, key)[i].0 != Cut(c, key)[k].0 {
      var j := CutFrom(c, key, i);
      var l := CutFrom(c, key, k);
    }
  }

  lemma HasExactly<K, V>(hash: Hash<K>, c: Chain<K, V>, b: nat, cap: nat, m: map<K, V>, key: K)
    requires cap > 0 && Right(hash, c, b, cap, m) && Bucket(hash, key, cap) == b
    ensures Has(c, key) <==> key in m
  {
    if key in m {
      var i :| 0 <= i < |c| && c[i] == (key, m[key]);
    }
  }

  lemma CutKeepsOthers<K, V>(hash: Hash<K>, c: Chain<K, V>, b: nat, cap: nat, m: map<K, V>, key: K)
    requires cap > 0 && Right(hash, c, b, cap, m) && Bucket(hash, key, cap) == b
    ensures forall k | k in m && k != key && Bucket(hash, k, cap) == b :: (k, m[k]) in Cut(c, key)
  {
    var c', n := Cut(c, key), IndexOf(c, key);
    forall k | k in m && k != key && Bucket(hash, k, cap) == b ensures (k, m[k]) in c' {
      var i :| 0 <= i < |c| && c[i] == (k, m[k]);
      assert c'[if i < n then i else i - 1] == c[i];
    }
  }

  lemma RemoveRefines<K, V>(hash: Hash<K>, t: Table<K, V>, m: map<K, V>, key: K)
    requires Represents(hash, t, m)
    ensures Represents(hash, Removed(hash, t, key), m - {key})
  {
    if |t.buckets| > 0 {
      var cap, b := |t.buckets|, Bucket(hash, key, |t.buckets|);
      assert Right(hash, t.buckets[b], b, cap, m);
      CutRight(hash, t.buckets[b], b, cap, m, key);
      assert (m - {key}).Keys == m.Keys - {key};
      if key in m {
        var t' := Removed(hash, t, key);
        forall x: nat | x < cap ensures Right(hash, t'.buckets[x], x, cap, m - {key}) {
          assert Right(hash, t.buckets[x], x, cap, m);
        }
      } else {
        assert m - {key} == m;
      }
    }
  }

  lemma LookUpRefines<K, V>(hash: Hash<K>, t: Table<K, V>, m: map<K, V>, key: K)
    requires Represents(hash, t, m)
    ensures Found(hash, t, key) == if key in m then Some(m[key]) else None
  {
    if |t.buckets| > 0 {
      var b := Bucket(hash, key, |t.buckets|);
      assert Right(hash, t.buckets[b], b, |t.buckets|, m);
      if key in m {
        var c := t.buckets[b];
        var i :| 0 <= i < |c| && c[i] == (key, m[key]);
      }
    }
  }

  // ---- Visiting and growing ----

  /** The map built by setting `pairs` one after another. */
  function Built<K, V>(m: map<K, V>, pairs: seq<(K, V)>): map<K, V>
    decreases |pairs|
  {
    if pairs == [] then m else Built(m[pairs[0].0 := pairs[0].1], pairs[1..])
  }

  lemma {:induction false} PutAllRefines<K, V>(hash: Hash<K>, t: Table<K, V>, m: map<K, V>, pairs: seq<(K, V)>)
    requires Represents(hash, t, m) && |t.buckets| > 0
    ensures Represents(hash, PutAll(hash, t, pairs), Built(m, pairs))
    decreases |pairs|
  {
    if pairs != [] {
      PutInRefines(hash, t, m, pairs[0].0, pairs[0].1);
      PutAllRefines(hash, PutIn(hash, t, pairs[0].0, pairs[0].1), m[pairs[0].0 := pairs[0].1], pairs[1..]);
    }
  }

  lemma {:induction false} BuiltFromDistinct<K, V>(m: map<K, V>, pairs: seq<(K, V)>)
    requires Distinct(pairs) && forall i | 0 <= i < |pairs| :: pairs[i].0 !in m
    ensures forall k | k in Built(m, pairs) :: k in m || exists i :: 0 <= i < |pairs| && pairs[i].0 == k
    ensures forall k | k in m :: k in Built(m, pairs) && Built(m, pairs)[k] == m[k]
    ensures forall i | 0 <= i < |pairs| ::
      pairs[i].0 in Built(m, pairs) && Built(m, pairs)[pairs[i].0] == pairs[i].1
    decreases |pairs|
  {
    if pairs != [] {
      var rest, m' := pairs[1..], m[pairs[0].0 := pairs[0].1];
      assert forall i | 0 <= i < |rest| :: rest[i] == pairs[i + 1];
      assert forall i | 1 <= i < |pairs| :: pairs[i] == rest[i - 1];
      BuiltFromDistinct(m', rest);
      forall k | k in m ensures k in Built(m, pairs) && Built(m, pairs)[k] == m[k] {
        assert k in m';
      }
    }
  }

  /** The buckets from `from` on hold the pairs of `m` that hash there. */
  lemma {:induction false} FlatFrom<K, V>(hash: Hash<K>, t: Table<K, V>, m: map<K, V>, from: nat)
    requires Represents(hash, t, m) && from <= |t.buckets| && |t.buckets| > 0
    ensures var f := Flat(t.buckets[from..]);
      && Distinct(f)
      && (forall i | 0 <= i < |f| ::
            f[i].0 in m && m[f[i].0] == f[i].1 && Bucket(hash, f[i].0, |t.buckets|) >= from)
      && (forall k | k in m && Bucket(hash, k, |t.buckets|) >= from :: (k, m[k]) in f)
    decreases |t.buckets| - from
  {
    if from < |t.buckets| {
      assert t.buckets[from..][1..] == t.buckets[from + 1..];
      FlatFrom(hash, t, m, from + 1);
      assert Right(hash, t.buckets[from], from, |t.buckets|, m);
    }
  }

  /** `ForEach` visits every pair of the map, and each exactly once. */
  lemma VisitsEachPairOnce<K, V>(hash: Hash<K>, t: Table<K, V>, m: map<K, V>)
    requires Represents(hash, t, m)
    ensures Distinct(Flat(t.buckets))
    ensures forall k, v :: (k, v) in Flat(t.buckets) <==> k in m && m[k] == v
  {
    if |t.buckets| > 0 {
      FlatFrom(hash, t, m, 0);
      assert t.buckets[0..] == t.buckets;
    }
  }

  lemma BlankRepresents<K, V>(hash: Hash<K>, n: nat)
    ensures Represents(hash, Blank<K, V>(n), map[])
  {
  }

  lemma PairsRebuild<K, V>(pairs: seq<(K, V)>, m: map<K, V>)
    requires Distinct(pairs)
    requires forall i | 0 <= i < |pairs| :: pairs[i].0 in m && m[pairs[i].0] == pairs[i].1
    requires forall k | k in m :: exists i :: 0 <= i < |pairs| && pairs[i].0 == k
    ensures Built(map[], pairs) == m
  {
    hide Built;
    var none: map<K, V> := map[];
    BuiltFromDistinct(none, pairs);
    var built := Built(none, pairs);
    forall k | k in m ensures k in built && built[k] == m[k] {
      var i :| 0 <= i < |pairs| && pairs[i].0 == k;
      assert built[pairs[i].0] == pairs[i].1;
    }
    forall k | k in built ensures k in m {
      assert k !in none;
      var i :| 0 <= i < |pairs| && pairs[i].0 == k;
    }
  }

  lemma FlatRebuilds<K, V>(hash: Hash<K>, t: Table<K, V>, m: map<K, V>)
    requires Represents(hash, t, m)
    ensures Built(map[], Flat(t.buckets)) == m
  {
    if |t.buckets| > 0 {
      FlatFrom(hash, t, m, 0);
      assert t.buckets[0..] == t.buckets;
      hide Represents, Flat, Built;
      var pairs := Flat(t.buckets);
      forall k | k in m ensures exists i :: 0 <= i < |pairs| && pairs[i].0 == k {
        var i :| 0 <= i < |pairs| && pairs[i] == (k, m[k]);
      }
      PairsRebuild(pairs, m);
    }
  }

  lemma GrowRefines<K, V>(hash: Hash<K>, t: Table<K, V>, m: map<K, V>)
    requires Represents(hash, t, m)
    ensures Represents(hash, Grown(hash, t), m)
  {
    hide Represents, Flat, Built;
    FlatRebuilds(hash, t, m);
    BlankRepresents<K, V>(hash, Max(2, 2 * t.size));
    PutAllRefines(hash, Blank(Max(2, 2 * t.size)), map[], Flat(t.buckets));
  }

  /** Insertion is the map update, and afterwards the load is at most one entry over
      0.75 of the capacity. */
  lemma InsertRefines<K, V>(hash: Hash<K>, t: Table<K, V>, m: map<K, V>, key: K, value: V)
    requires Represents(hash, t, m)
    ensures var t' := Inserted(hash, t, key, value);
      && Represents(hash, t', m[key := value])
      && 4 * t'.size <= 3 * |t'.buckets| + 4
      && |t'.buckets| == (if 4 * |m| <= 3 * |t.buckets| && t.buckets != [] then |t.buckets|
                          else if m == map[] then 2 else 2 * |m|)
  {
    if NeedsGrowing(t) {
      GrowRefines(hash, t, m);
      PutInRefines(hash, Grown(hash, t), m, key, value);
    } else {
      PutInRefines(hash, t, m, key, value);
    }
  }

  // ---- Whole runs ----

  datatype Op<K, V> = Add(key: K, value: V) | Drop(key: K)

  function RunTable<K(==), V>(hash: Hash<K>, cap: nat, ops: seq<Op<K, V>>): Table<K, V> {
    if ops == [] then Blank(cap)
    else
      var t := RunTable(hash, cap, ops[..|ops| - 1]);
      match ops[|ops| - 1]
      case Add(k, v) => Inserted(hash, t, k, v)
      case Drop(k) => Removed(hash, t, k)
  }

  function RunMap<K(==), V>(ops: seq<Op<K, V>>): map<K, V> {
    if ops == [] then map[]
    else
      var m := RunMap(ops[..|ops| - 1]);
      match ops[|ops| - 1]
      case Add(k, v) => m[k := v]
      case Drop(k) => m - {k}
  }

  /** Every run is a run of the mathematical map: each key sits once, in its own bucket,
      `size_` is the number of keys, look-ups and visits give the map's answers. */
  lemma {:induction false} EveryRunRefines<K, V>(hash: Hash<K>, cap: nat, ops: seq<Op<K, V>>)
    ensures Represents(hash, RunTable(hash, cap, ops), RunMap(ops))
  {
    if ops == [] {
      BlankRepresents<K, V>(hash, cap);
    } else {
      var before := ops[..|ops| - 1];
      EveryRunRefines(hash, cap, before);
      match ops[|ops| - 1]
      case Add(k, v) => InsertRefines(hash, RunTable(hash, cap, before), RunMap(before), k, v);
      case Drop(k) => RemoveRefines(hash, RunTable(hash, cap, before), RunMap(before), k);
    }
  }
}
