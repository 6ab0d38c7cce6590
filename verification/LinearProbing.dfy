/** The open-addressing hash map: linear probing, tombstones, doubling at load factor
    0.75. Capacities are positive and the hash is any function. */
module LinearProbing {
  import opened Text

  datatype Slot<K, V> = Empty | Deleted | Element(key: K, value: V)

  /** `entries_` and `size_`. `size_` counts insertions and never goes down. */
  datatype Table<K, V> = Table(entries: seq<Slot<K, V>>, size: nat)

  type Hash<!K> = K -> nat

  // ---- Probing ----

  function Home<K>(hash: Hash<K>, key: K, cap: nat): nat
    requires cap > 0
  {
    hash(key) % cap
  }

  /** The slot `d` places after `home`, going round. */
  function Along(home: nat, d: nat, cap: nat): (p: nat)
    requires home < cap && d <= cap
    ensures p < cap
  {
    if home + d < cap then home + d else home + d - cap
  }

  /** How many places after `home` slot `p` comes. */
  function Dist(home: nat, p: nat, cap: nat): (d: nat)
    requires home < cap && p < cap
    ensures d < cap && Along(home, d, cap) == p
  {
    if p >= home then p - home else p + cap - home
  }

  lemma NextAlong(home: nat, d: nat, cap: nat)
    requires home < cap && d < cap
    ensures (Along(home, d, cap) + 1) % cap == Along(home, d + 1, cap)
    ensures Along(home, d + 1, cap) == home <==> d + 1 == cap
  {
  }

  predicate Holds<K(==), V>(slot: Slot<K, V>, key: K) {
    slot.Element? && slot.key == key
  }

  /** `InternalFind` from `d` places after home: past tombstones and other keys, to the
      key or an empty slot, once round at most. */
  function Find<K(==), V>(entries: seq<Slot<K, V>>, home: nat, key: K, d: nat): (r: Option<nat>)
    requires home < |entries| && d <= |entries|
    decreases |entries| - d
  {
    if d == |entries| then None
    else
      var p := Along(home, d, |entries|);
      if entries[p].Empty? then None
      else if Holds(entries[p], key) then Some(p)
      else Find(entries, home, key, d + 1)
  }

  /** The insertion loop from `d` places after home: past other keys only, so it stops
      at a tombstone, an empty slot or the key itself. `None` if it would go round. */
  function Place<K(==), V>(entries: seq<Slot<K, V>>, home: nat, key: K, d: nat): (r: Option<nat>)
    requires home < |entries| && d <= |entries|
    decreases |entries| - d
  {
    if d == |entries| then None
    else
      var p := Along(home, d, |entries|);
      if entries[p].Element? && entries[p].key != key then Place(entries, home, key, d + 1)
      else Some(p)
  }

  // ---- What every table keeps ----

  function Count<K, V>(entries: seq<Slot<K, V>>): (n: nat)
    ensures n <= |entries|
  {
    if entries == [] then 0
    else (if entries[0].Element? then 1 else 0) + Count(entries[1..])
  }

  /** Every element can be reached from its home: no slot before it is empty. */
  ghost predicate Reachable<K, V>(hash: Hash<K>, entries: seq<Slot<K, V>>)
    requires |entries| > 0
  {
    forall p: nat, d: nat ::
      p < |entries| && entries[p].Element? &&
      d < Dist(Home(hash, entries[p].key, |entries|), p, |entries|) ==>
        !entries[Along(Home(hash, entries[p].key, |entries|), d, |entries|)].Empty?
  }

  /** `size_` bounds the elements, and load stays within one insertion of 0.75. */
  ghost predicate Valid<K, V>(hash: Hash<K>, t: Table<K, V>) {
    && |t.entries| > 0
    && Count(t.entries) <= t.size
    && 4 * t.size <= 3 * |t.entries| + 4
    && Reachable(hash, t.entries)
  }

  predicate NeedsResize<K, V>(t: Table<K, V>) {
    4 * t.size > 3 * |t.entries|
  }

  lemma {:induction false} CountUpdate<K, V>(entries: seq<Slot<K, V>>, p: nat, slot: Slot<K, V>)
    requires p < |entries|
    ensures Count(entries[p := slot]) ==
      Count(entries) + (if slot.Element? then 1 else 0) - (if entries[p].Element? then 1 else 0)
  {
    if p == 0 {
      assert entries[p := slot][1..] == entries[1..];
    } else {
      assert entries[p := slot][1..] == entries[1..][p - 1 := slot];
      CountUpdate(entries[1..], p - 1, slot);
    }
  }

  lemma {:induction false} FullCount<K, V>(entries: seq<Slot<K, V>>)
    requires forall p | 0 <= p < |entries| :: entries[p].Element?
    ensures Count(entries) == |entries|
  {
    if entries != [] {
      FullCount(entries[1..]);
    }
  }

  /** With a slot to spare the insertion loop stops, and where it stops everything it
      passed is an element with another key. */
  lemma {:induction false} PlaceStops<K, V>(entries: seq<Slot<K, V>>, home: nat, key: K, d: nat)
    requires home < |entries| && d <= |entries| && Count(entries) < |entries|
    requires forall e: nat | e < d :: var p := Along(home, e, |entries|);
      entries[p].Element? && entries[p].key != key
    ensures var r := Place(entries, home, key, d);
      && r.Some? && r.value < |entries|
      && !(entries[r.value].Element? && entries[r.value].key != key)
      && forall e: nat | e < Dist(home, r.value, |entries|) :: var p := Along(home, e, |entries|);
           entries[p].Element? && entries[p].key != key
    decreases |entries| - d
  {
    if d == |entries| {
      forall p | 0 <= p < |entries| ensures entries[p].Element? {
        assert Along(home, Dist(home, p, |entries|), |entries|) == p;
      }
      FullCount(entries);
    } else {
      var p := Along(home, d, |entries|);
      if entries[p].Element? && entries[p].key != key {
        PlaceStops(entries, home, key, d + 1);
      } else {
        assert Dist(home, p, |entries|) == d;
      }
    }
  }

  // ---- Finding ----

  /** The key is not among the first `stop` slots of its path, and the path ends there. */
  ghost predicate Misses<K, V>(entries: seq<Slot<K, V>>, home: nat, key: K, stop: nat)
    requires home < |entries|
  {
    && stop <= |entries|
    && (forall e: nat | e < stop :: !Holds(entries[Along(home, e, |entries|)], key))
    && (stop < |entries| ==> entries[Along(home, stop, |entries|)].Empty?)
  }

  lemma {:induction false} FindStops<K, V>(entries: seq<Slot<K, V>>, home: nat, key: K, d: nat)
    requires home < |entries| && d <= |entries|
    requires forall e: nat | e < d :: var p := Along(home, e, |entries|);
      !entries[p].Empty? && !Holds(entries[p], key)
    ensures match Find(entries, home, key, d)
      case Some(p) =>
        && p < |entries| && Holds(entries[p], key)
        && (forall e: nat | e < Dist(home, p, |entries|) :: var q := Along(home, e, |entries|);
              !entries[q].Empty? && !Holds(entries[q], key))
      case None => exists stop: nat :: Misses(entries, home, key, stop)
    decreases |entries| - d
  {
    if d == |entries| {
      assert Misses(entries, home, key, d);
    } else {
      var p := Along(home, d, |entries|);
      assert Dist(home, p, |entries|) == d;
      if entries[p].Empty? {
        assert Misses(entries, home, key, d);
      } else if !Holds(entries[p], key) {
        FindStops(entries, home, key, d + 1);
      }
    }
  }

  /** A look-up succeeds exactly when some element slot holds the key, and then it is
      the first such slot on the key's path. */
  lemma FindExactly<K, V>(hash: Hash<K>, entries: seq<Slot<K, V>>, key: K)
    requires |entries| > 0 && Reachable(hash, entries)
    ensures var home := Home(hash, key, |entries|);
      var r := Find(entries, home, key, 0);
      && (r.Some? <==> exists p: nat | p < |entries| :: Holds(entries[p], key))
      && (r.Some? ==>
            && r.value < |entries| && Holds(entries[r.value], key)
            && forall p: nat | p < |entries| && Holds(entries[p], key) ::
                 Dist(home, r.value, |entries|) <= Dist(home, p, |entries|))
  {
    var home := Home(hash, key, |entries|);
    FindStops(entries, home, key, 0);
    var r := Find(entries, home, key, 0);
    forall p: nat | p < |entries| && Holds(entries[p], key)
      ensures r.Some? && Dist(home, r.value, |entries|) <= Dist(home, p, |entries|)
    {
      var d := Dist(home, p, |entries|);
      assert Along(home, d, |entries|) == p;
    }
  }

  // ---- Inserting ----

  function Put<K(==), V>(hash: Hash<K>, entries: seq<Slot<K, V>>, key: K, value: V): (r: seq<Slot<K, V>>)
    requires |entries| > 0
    ensures |r| == |entries|
  {
    match Place(entries, Home(hash, key, |entries|), key, 0)
    case Some(p) => if p < |entries| then entries[p := Element(key, value)] else entries
    case None => entries
  }

  lemma PutFacts<K, V>(hash: Hash<K>, entries: seq<Slot<K, V>>, key: K, value: V)
    requires |entries| > 0 && Reachable(hash, entries) && Count(entries) < |entries|
    ensures var r := Put(hash, entries, key, value);
      && Reachable(hash, r)
      && Count(r) <= Count(entries) + 1
      && (Tombless(entries) ==> Tombless(r))
  {
    var cap := |entries|;
    var home := Home(hash, key, cap);
    PlaceStops(entries, home, key, 0);
    var p := Place(entries, home, key, 0).value;
    CountUpdate(entries, p, Element(key, value));
    hide Place, Count, Reachable, Along, Dist;
    FilledIsReachable(hash, entries, key, value, p);
  }

  /** Filling a slot to which the key's path is unbroken keeps every element reachable. */
  lemma FilledIsReachable<K, V>(hash: Hash<K>, entries: seq<Slot<K, V>>, key: K, value: V, p: nat)
    requires |entries| > 0 && Reachable(hash, entries) && p < |entries|
    requires var home := Home(hash, key, |entries|);
      forall e: nat | e < Dist(home, p, |entries|) :: entries[Along(home, e, |entries|)].Element?
    ensures Reachable(hash, entries[p := Element(key, value)])
  {
    hide Along, Dist;
    var r := entries[p := Element(key, value)];
    forall q: nat, d: nat | q < |r| && r[q].Element? && d < Dist(Home(hash, r[q].key, |r|), q, |r|)
      ensures !r[Along(Home(hash, r[q].key, |r|), d, |r|)].Empty?
    {
      var at := Along(Home(hash, r[q].key, |r|), d, |r|);
      if q != p {
        assert !entries[at].Empty?;
      } else {
        assert entries[at].Element?;
      }
    }
  }

  ghost predicate Tombless<K, V>(entries: seq<Slot<K, V>>) {
    forall p | 0 <= p < |entries| :: !entries[p].Deleted?
  }

  // ---- Growing ----

  function Blank<K, V>(n: nat): seq<Slot<K, V>> {
    seq(n, _ => Slot<K, V>.Empty)
  }

  function Rehash<K(==), V>(hash: Hash<K>, from: seq<Slot<K, V>>, into: seq<Slot<K, V>>): (r: seq<Slot<K, V>>)
    requires |into| > 0
    ensures |r| == |into|
    decreases |from|
  {
    if from == [] then into
    else
      Rehash(hash, from[1..],
             if from[0].Element? then Put(hash, into, from[0].key, from[0].value) else into)
  }

  lemma {:induction false} RehashFacts<K, V>(hash: Hash<K>, from: seq<Slot<K, V>>, into: seq<Slot<K, V>>)
    requires |into| > 0 && Reachable(hash, into) && Tombless(into)
    requires Count(into) + Count(from) < |into|
    ensures var r := Rehash(hash, from, into);
      Reachable(hash, r) && Tombless(r) && Count(r) <= Count(into) + Count(from)
    decreases |from|
  {
    if from != [] {
      if from[0].Element? {
        PutFacts(hash, into, from[0].key, from[0].value);
        RehashFacts(hash, from[1..], Put(hash, into, from[0].key, from[0].value));
      } else {
        RehashFacts(hash, from[1..], into);
      }
    }
  }

  lemma {:induction false} BlankCount<K, V>(n: nat)
    ensures Count(Blank<K, V>(n)) == 0
  {
    if n > 0 {
      assert Blank<K, V>(n)[1..] == Blank<K, V>(n - 1);
      BlankCount<K, V>(n - 1);
    }
  }

  function Grown<K(==), V>(hash: Hash<K>, t: Table<K, V>): Table<K, V> {
    t.(entries := Rehash(hash, t.entries, Blank(if |t.entries| == 0 then 2 else 2 * |t.entries|)))
  }

  /** `InsertWithoutSize`, then `size_++`. */
  function Inserted<K(==), V>(hash: Hash<K>, t: Table<K, V>, key: K, value: V): Table<K, V>
    requires |t.entries| > 0
  {
    var t' := if NeedsResize(t) then Grown(hash, t) else t;
    Table(Put(hash, t'.entries, key, value), t.size + 1)
  }

  /** Growing leaves room and no tombstones, and the insertions it makes never ask for
      growing again. */
  lemma GrownFacts<K, V>(hash: Hash<K>, t: Table<K, V>)
    requires Valid(hash, t) && NeedsResize(t)
    ensures var g := Grown(hash, t);
      && |g.entries| == 2 * |t.entries| && !NeedsResize(g)
      && Reachable(hash, g.entries) && Tombless(g.entries)
      && Count(g.entries) <= Count(t.entries)
  {
    BlankCount<K, V>(2 * |t.entries|);
    RehashFacts(hash, t.entries, Blank(2 * |t.entries|));
  }

  lemma InsertedIsValid<K, V>(hash: Hash<K>, t: Table<K, V>, key: K, value: V)
    requires Valid(hash, t)
    ensures Valid(hash, Inserted(hash, t, key, value))
  {
    if NeedsResize(t) {
      GrownFacts(hash, t);
      PutFacts(hash, Grown(hash, t).entries, key, value);
    } else {
      PutFacts(hash, t.entries, key, value);
    }
  }

  // ---- Removing ----

  function Removed<K(==), V>(hash: Hash<K>, t: Table<K, V>, key: K): Table<K, V>
    requires |t.entries| > 0
  {
    match Find(t.entries, Home(hash, key, |t.entries|), key, 0)
    case Some(p) => if p < |t.entries| then t.(entries := t.entries[p := Deleted]) else t
    case None => t
  }

  lemma RemovedIsValid<K, V>(hash: Hash<K>, t: Table<K, V>, key: K)
    requires Valid(hash, t)
    ensures Valid(hash, Removed(hash, t, key))
  {
    FindExactly(hash, t.entries, key);
    var r := Find(t.entries, Home(hash, key, |t.entries|), key, 0);
    if r.Some? {
      CountUpdate(t.entries, r.value, Deleted);
    }
  }

  // ---- Against a mathematical map ----

  ghost predicate Unique<K, V>(entries: seq<Slot<K, V>>) {
    forall p, q | 0 <= p < q < |entries| && entries[p].Element? && entries[q].Element? ::
      entries[p].key != entries[q].key
  }

  /** The elements are exactly the pairs of `m`, each once. */
  ghost predicate Agrees<K, V>(entries: seq<Slot<K, V>>, m: map<K, V>) {
    && Unique(entries)
    && (forall p | 0 <= p < |entries| && entries[p].Element? ::
          entries[p].key in m && m[entries[p].key] == entries[p].value)
    && (forall k | k in m :: exists p: nat | p < |entries| :: Holds(entries[p], k))
  }

  /** A tombstone comes before the key on the key's own path. */
  ghost predicate Shadowed<K, V>(hash: Hash<K>, entries: seq<Slot<K, V>>, key: K)
    requires |entries| > 0
  {
    var home := Home(hash, key, |entries|);
    exists p: nat, q: nat ::
      && p < |entries| && q < |entries|
      && Holds(entries[p], key) && entries[q].Deleted?
      && Dist(home, q, |entries|) < Dist(home, p, |entries|)
  }

  /** The condition a caller can check: the table is about to grow, or no tombstone
      hides the key. */
  ghost predicate Clear<K, V>(hash: Hash<K>, t: Table<K, V>, key: K)
    requires |t.entries| > 0
  {
    NeedsResize(t) || !Shadowed(hash, t.entries, key)
  }

  /** Where the insertion of a key already at `q` goes: to `q`, unless a tombstone comes
      first. */
  lemma PlaceOfHeld<K, V>(hash: Hash<K>, entries: seq<Slot<K, V>>, key: K, q: nat)
    requires |entries| > 0 && Reachable(hash, entries) && Count(entries) < |entries| && Unique(entries)
    requires q < |entries| && Holds(entries[q], key)
    ensures var r := Place(entries, Home(hash, key, |entries|), key, 0);
      && r.Some? && r.value < |entries|
      && (r.value == q <==> !Shadowed(hash, entries, key))
      && (r.value != q ==> entries[r.value].Deleted?)
      && var home := Home(hash, key, |entries|);
      (r.value != q ==> Dist(home, r.value, |entries|) < Dist(home, q, |entries|))
  {
    var home := Home(hash, key, |entries|);
    PlaceStops(entries, home, key, 0);
    var p := Place(entries, home, key, 0).value;
    assert Along(home, Dist(home, q, |entries|), |entries|) == q;
    if p != q {
      assert Dist(home, p, |entries|) < Dist(home, q, |entries|);
      assert Along(home, Dist(home, p, |entries|), |entries|) == p;
      assert !entries[p].Empty?;
      assert entries[p].Deleted?;
    }
  }

  /** Insertion refines the map update exactly when no tombstone hides the key: that is
      also exactly when no second copy of the key appears. */
  lemma PutRefinesExactly<K, V>(hash: Hash<K>, entries: seq<Slot<K, V>>, m: map<K, V>, key: K, value: V)
    requires |entries| > 0 && Reachable(hash, entries) && Count(entries) < |entries| && Agrees(entries, m)
    ensures Agrees(Put(hash, entries, key, value), m[key := value]) <==> !Shadowed(hash, entries, key)
    ensures Unique(Put(hash, entries, key, value)) <==> !Shadowed(hash, entries, key)
  {
    var home := Home(hash, key, |entries|);
    PlaceStops(entries, home, key, 0);
    var p := Place(entries, home, key, 0).value;
    var r := Put(hash, entries, key, value);
    if key in m {
      var q: nat :| q < |entries| && Holds(entries[q], key);
      PlaceOfHeld(hash, entries, key, q);
      if p != q {
        assert r[p].key == r[q].key;
      } else {
        PutAgrees(entries, m, key, value, p);
      }
    } else {
      PutAgrees(entries, m, key, value, p);
    }
  }

  lemma PutAgrees<K, V>(entries: seq<Slot<K, V>>, m: map<K, V>, key: K, value: V, p: nat)
    requires Agrees(entries, m) && p < |entries|
    requires key in m ==> Holds(entries[p], key)
    requires key !in m ==> !entries[p].Element?
    ensures Agrees(entries[p := Element(key, value)], m[key := value])
  {
    var r := entries[p := Element(key, value)];
    var m' := m[key := value];
    forall k | k in m' ensures exists q: nat | q < |r| :: Holds(r[q], k) {
      if k == key {
        assert Holds(r[p], k);
      } else {
        var q: nat :| q < |entries| && Holds(entries[q], k);
        assert Holds(r[q], k);
      }
    }
  }

  /** The key is at exactly two slots, `p` before `q` on its path. */
  ghost predicate TwoCopies<K, V>(hash: Hash<K>, entries: seq<Slot<K, V>>, key: K, p: nat, q: nat) {
    && p < |entries| && q < |entries| && p != q
    && Holds(entries[p], key) && Holds(entries[q], key)
    && (forall x: nat | x < |entries| && Holds(entries[x], key) :: x == p || x == q)
    && Dist(Home(hash, key, |entries|), p, |entries|) < Dist(Home(hash, key, |entries|), q, |entries|)
  }

  lemma HiddenPutDoubles<K, V>(hash: Hash<K>, entries: seq<Slot<K, V>>, m: map<K, V>, key: K, value: V)
    returns (p: nat, q: nat)
    requires |entries| > 0 && Reachable(hash, entries) && Count(entries) < |entries| && Agrees(entries, m)
    requires Shadowed(hash, entries, key)
    ensures TwoCopies(hash, Put(hash, entries, key, value), key, p, q)
    ensures key in m && Put(hash, entries, key, value)[q] == Element(key, m[key])
  {
    var home, cap := Home(hash, key, |entries|), |entries|;
    q :| q < cap && Holds(entries[q], key);
    PlaceOfHeld(hash, entries, key, q);
    assert key in m && entries[q] == Element(key, m[key]);
    OnlyHolder(entries, key, q);
    hide Place, Reachable, Shadowed, Count, Dist, Agrees;
    p := Place(entries, home, key, 0).value;
    Doubled(hash, entries, key, value, p, q);
  }

  lemma OnlyHolder<K, V>(entries: seq<Slot<K, V>>, key: K, q: nat)
    requires Unique(entries) && q < |entries| && Holds(entries[q], key)
    ensures forall x: nat | x < |entries| && Holds(entries[x], key) :: x == q
  {
  }

  lemma Doubled<K, V>(hash: Hash<K>, entries: seq<Slot<K, V>>, key: K, value: V, p: nat, q: nat)
    requires p < |entries| && q < |entries| && p != q && Holds(entries[q], key)
    requires forall x: nat | x < |entries| && Holds(entries[x], key) :: x == q
    requires Dist(Home(hash, key, |entries|), p, |entries|) < Dist(Home(hash, key, |entries|), q, |entries|)
    ensures TwoCopies(hash, entries[p := Element(key, value)], key, p, q)
  {
    hide Dist;
  }

  lemma SecondCopySurvives<K, V>(hash: Hash<K>, entries: seq<Slot<K, V>>, key: K, p: nat, q: nat)
    requires |entries| > 0 && Reachable(hash, entries) && TwoCopies(hash, entries, key, p, q)
    ensures Find(entries, Home(hash, key, |entries|), key, 0) == Some(p)
    ensures Find(entries[p := Deleted], Home(hash, key, |entries|), key, 0) == Some(q)
  {
    FindExactly(hash, entries, key);
    var after := entries[p := Deleted];
    assert Reachable(hash, after);
    FindExactly(hash, after, key);
    assert Holds(after[q], key);
  }

  /** The failing family, on every input: inserting a hidden key and then removing it
      leaves the key findable, with the value it had before. */
  lemma HiddenKeyComesBack<K, V>(hash: Hash<K>, t: Table<K, V>, m: map<K, V>, key: K, value: V)
    requires Valid(hash, t) && Agrees(t.entries, m) && !Clear(hash, t, key)
    ensures key in m && |Inserted(hash, t, key, value).entries| > 0
    ensures var after := Removed(hash, Inserted(hash, t, key, value), key);
      && |after.entries| > 0
      && var again := Find(after.entries, Home(hash, key, |after.entries|), key, 0);
      again.Some? && again.value < |after.entries| && after.entries[again.value] == Element(key, m[key])
  {
    var p, q := HiddenPutDoubles(hash, t.entries, m, key, value);
    PutFacts(hash, t.entries, key, value);
    SecondCopySurvives(hash, Put(hash, t.entries, key, value), key, p, q);
  }

  /** What a look-up returns in a table that agrees with a map. */
  lemma FindRefines<K, V>(hash: Hash<K>, t: Table<K, V>, m: map<K, V>, key: K)
    requires Valid(hash, t) && Agrees(t.entries, m)
    ensures match Find(t.entries, Home(hash, key, |t.entries|), key, 0)
      case None => key !in m
      case Some(p) => p < |t.entries| && key in m && t.entries[p] == Element(key, m[key])
  {
    FindExactly(hash, t.entries, key);
  }

  lemma RemoveRefines<K, V>(hash: Hash<K>, t: Table<K, V>, m: map<K, V>, key: K)
    requires Valid(hash, t) && Agrees(t.entries, m)
    ensures Agrees(Removed(hash, t, key).entries, m - {key})
  {
    FindExactly(hash, t.entries, key);
    var r := Removed(hash, t, key).entries;
    forall k | k in m - {key} ensures exists q: nat | q < |r| :: Holds(r[q], k) {
      var q: nat :| q < |t.entries| && Holds(t.entries[q], k);
      assert Holds(r[q], k);
    }
  }

  /** Moving elements into a tombless table adds just their pairs. */
  lemma {:induction false} RehashAgrees<K, V>(hash: Hash<K>, from: seq<Slot<K, V>>, into: seq<Slot<K, V>>,
                                              done: map<K, V>, m: map<K, V>)
    requires |into| > 0 && Reachable(hash, into) && Tombless(into) && Count(into) + Count(from) < |into|
    requires Agrees(into, done) && Unique(from)
    requires forall k | k in done :: k in m && m[k] == done[k]
    requires forall p | 0 <= p < |from| && from[p].Element? ::
      from[p].key in m && m[from[p].key] == from[p].value && from[p].key !in done
    requires forall k | k in m :: k in done || exists p: nat | p < |from| :: Holds(from[p], k)
    ensures Agrees(Rehash(hash, from, into), m)
    decreases |from|
  {
    if from == [] {
      assert done == m;
    } else {
      var rest := from[1..];
      assert forall p | 0 <= p < |rest| :: rest[p] == from[p + 1];
      if from[0].Element? {
        var (k, v) := (from[0].key, from[0].value);
        PutFacts(hash, into, k, v);
        PutRefinesExactly(hash, into, done, k, v);
        forall x | x in m ensures x in done[k := v] || exists p: nat | p < |rest| :: Holds(rest[p], x) {
          StillThere(from, rest, x);
        }
        RehashAgrees(hash, rest, Put(hash, into, k, v), done[k := v], m);
      } else {
        forall x | x in m ensures x in done || exists p: nat | p < |rest| :: Holds(rest[p], x) {
          StillThere(from, rest, x);
        }
        RehashAgrees(hash, rest, into, done, m);
      }
    }
  }

  lemma StillThere<K, V>(from: seq<Slot<K, V>>, rest: seq<Slot<K, V>>, k: K)
    requires from != [] && rest == from[1..]
    ensures (exists p: nat | p < |from| :: Holds(from[p], k)) ==>
      Holds(from[0], k) || exists p: nat | p < |rest| :: Holds(rest[p], k)
  {
    if p: nat :| p < |from| && Holds(from[p], k) {
      if p > 0 {
        assert Holds(rest[p - 1], k);
      }
    }
  }

  lemma GrowRefines<K, V>(hash: Hash<K>, t: Table<K, V>, m: map<K, V>)
    requires Valid(hash, t) && NeedsResize(t) && Agrees(t.entries, m)
    ensures Agrees(Grown(hash, t).entries, m)
  {
    BlankCount<K, V>(2 * |t.entries|);
    RehashAgrees(hash, t.entries, Blank(2 * |t.entries|), map[], m);
  }

  /** `Insert` is the map update if and only if that holds. */
  lemma InsertRefinesExactly<K, V>(hash: Hash<K>, t: Table<K, V>, m: map<K, V>, key: K, value: V)
    requires Valid(hash, t) && Agrees(t.entries, m)
    ensures Agrees(Inserted(hash, t, key, value).entries, m[key := value]) <==> Clear(hash, t, key)
  {
    if NeedsResize(t) {
      GrownFacts(hash, t);
      GrowRefines(hash, t, m);
      PutRefinesExactly(hash, Grown(hash, t).entries, m, key, value);
    } else {
      PutRefinesExactly(hash, t.entries, m, key, value);
    }
  }

  // ---- Whole runs ----

  datatype Op<K, V> = Add(key: K, value: V) | Drop(key: K)

  function RunTable<K(==), V>(hash: Hash<K>, cap: nat, ops: seq<Op<K, V>>): (t: Table<K, V>)
    requires cap > 0
    ensures |t.entries| > 0
  {
    if ops == [] then Table(Blank(cap), 0)
    else
      var t := RunTable(hash, cap, ops[..|ops| - 1]);
      match ops[|ops| - 1]
      case Add(k, v) => Inserted(hash, t, k, v)
      case Drop(k) => Removed(hash, t, k)
  }

  function RunMap<K(==), V>(ops: seq<Op<K, V>>): map<K, V> {
    if ops == [] then map[]
    else
      var m := RunMap(ops[..|ops| - 1]);
      match ops[|ops| - 1]
      case Add(k, v) => m[k := v]
      case Drop(k) => m - {k}
  }

  /** In every run the invariants hold, so every insertion finds a slot, growing never
      re-enters itself, and look-ups are exact about element slots. */
  lemma {:induction false} EveryRunIsValid<K, V>(hash: Hash<K>, cap: nat, ops: seq<Op<K, V>>)
    requires cap > 0
    ensures Valid(hash, RunTable(hash, cap, ops))
    ensures (forall i | 0 <= i < |ops| :: ops[i].Add?) ==> Tombless(RunTable(hash, cap, ops).entries)
  {
    if ops == [] {
      BlankCount<K, V>(cap);
    } else {
      var before := ops[..|ops| - 1];
      EveryRunIsValid(hash, cap, before);
      var t := RunTable(hash, cap, before);
      match ops[|ops| - 1]
      case Add(k, v) =>
        InsertedIsValid(hash, t, k, v);
        if NeedsResize(t) {
          GrownFacts(hash, t);
          PutFacts(hash, Grown(hash, t).entries, k, v);
        } else {
          PutFacts(hash, t.entries, k, v);
        }
      case Drop(k) => RemovedIsValid(hash, t, k);
    }
  }

  function Additions<K, V>(ops: seq<Op<K, V>>): nat {
    if ops == [] then 0
    else Additions(ops[..|ops| - 1]) + (if ops[|ops| - 1].Add? then 1 else 0)
  }

  function Doublings(cap: nat, times: nat): nat {
    if times == 0 then cap else 2 * Doublings(cap, times - 1)
  }

  /** Whatever is removed or overwritten, a run's table has counted its insertions, and its
      capacity is the first doubling of the initial one at which all but the last of them
      keep to a load of 0.75. */
  lemma {:induction false} CapacityCountsInsertions<K, V>(hash: Hash<K>, cap: nat, ops: seq<Op<K, V>>)
    returns (times: nat)
    requires cap > 0
    ensures var t, n := RunTable(hash, cap, ops), Additions(ops);
      && t.size == n && |t.entries| == Doublings(cap, times)
      && (n > 0 ==> 4 * (n - 1) <= 3 * Doublings(cap, times))
      && (times > 0 ==> n > 0 && 4 * (n - 1) > 3 * Doublings(cap, times - 1))
  {
    hide RunTable, Additions, Inserted, Removed, Valid;
    LastOp(hash, cap, ops);
    times := 0;
    if ops != [] {
      var before := ops[..|ops| - 1];
      times := CapacityCountsInsertions(hash, cap, before);
      EveryRunIsValid(hash, cap, before);
      var t := RunTable(hash, cap, before);
      match ops[|ops| - 1]
      case Add(k, v) =>
        InsertedSize(hash, t, k, v);
        if NeedsResize(t) {
          times := times + 1;
        }
      case Drop(k) => RemovedSize(hash, t, k);
    }
  }

  lemma LastOp<K, V>(hash: Hash<K>, cap: nat, ops: seq<Op<K, V>>)
    requires cap > 0
    ensures ops == [] ==> |RunTable(hash, cap, ops).entries| == cap && RunTable(hash, cap, ops).size == 0
    ensures ops == [] ==> Additions(ops) == 0
    ensures ops != [] ==>
      var before, op := ops[..|ops| - 1], ops[|ops| - 1];
      var t := RunTable(hash, cap, before);
      && Additions(ops) == Additions(before) + (if op.Add? then 1 else 0)
      && RunTable(hash, cap, ops) == if op.Add? then Inserted(hash, t, op.key, op.value) else Removed(hash, t, op.key)
  {
    hide Inserted, Removed;
  }

  lemma InsertedSize<K, V>(hash: Hash<K>, t: Table<K, V>, key: K, value: V)
    requires Valid(hash, t)
    ensures var t' := Inserted(hash, t, key, value);
      t'.size == t.size + 1 && |t'.entries| == if NeedsResize(t) then 2 * |t.entries| else |t.entries|
  {
    hide Put, Grown;
    if NeedsResize(t) {
      GrownFacts(hash, t);
      PutKeepsSize(hash, Grown(hash, t).entries, key, value);
    } else {
      PutKeepsSize(hash, t.entries, key, value);
    }
  }

  lemma RemovedSize<K, V>(hash: Hash<K>, t: Table<K, V>, key: K)
    requires |t.entries| > 0
    ensures Removed(hash, t, key).size == t.size && |Removed(hash, t, key).entries| == |t.entries|
  {
    hide Find;
  }

  lemma PutKeepsSize<K, V>(hash: Hash<K>, entries: seq<Slot<K, V>>, key: K, value: V)
    requires |entries| > 0
    ensures |Put(hash, entries, key, value)| == |entries|
  {
  }

  /** The table is the map after every operation. */
  ghost predicate AgreesThroughout<K, V>(hash: Hash<K>, cap: nat, ops: seq<Op<K, V>>)
    requires cap > 0
  {
    && Agrees(RunTable(hash, cap, ops).entries, RunMap(ops))
    && (ops != [] ==> AgreesThroughout(hash, cap, ops[..|ops| - 1]))
  }

  /** No insertion meets its key behind a tombstone, unless it makes the table grow. */
  ghost predicate ClearThroughout<K, V>(hash: Hash<K>, cap: nat, ops: seq<Op<K, V>>)
    requires cap > 0
  {
    ops != [] ==>
      && (ops[|ops| - 1].Add? ==> Clear(hash, RunTable(hash, cap, ops[..|ops| - 1]), ops[|ops| - 1].key))
      && ClearThroughout(hash, cap, ops[..|ops| - 1])
  }

  /** A run behaves as a map throughout if and only if every insertion is clear. */
  lemma {:induction false} RunsRefineExactly<K, V>(hash: Hash<K>, cap: nat, ops: seq<Op<K, V>>)
    requires cap > 0
    ensures AgreesThroughout(hash, cap, ops) <==> ClearThroughout(hash, cap, ops)
  {
    hide Agrees, Clear, Valid, Inserted, Removed;
    if ops == [] {
      BlankAgrees<K, V>(cap);
    } else {
      var before := ops[..|ops| - 1];
      RunsRefineExactly(hash, cap, before);
      EveryRunIsValid(hash, cap, before);
      var t, m := RunTable(hash, cap, before), RunMap(before);
      if AgreesThroughout(hash, cap, before) {
        assert Agrees(t.entries, m);
        match ops[|ops| - 1]
        case Add(k, v) => InsertRefinesExactly(hash, t, m, k, v);
        case Drop(k) => RemoveRefines(hash, t, m, k);
      }
    }
  }

  lemma BlankAgrees<K, V>(cap: nat)
    ensures Agrees(Blank<K, V>(cap), map[])
  {
  }

  /** After the first removal, only absent keys are inserted. */
  ghost predicate Careful<K(!new), V(!new)>(ops: seq<Op<K, V>>) {
    forall i, j | 0 <= j < i < |ops| && ops[j].Drop? && ops[i].Add? :: ops[i].key !in RunMap(ops[..i])
  }

  /** Such runs agree with a map at every moment. */
  lemma {:induction false} CarefulRunsRefine<K(!new), V(!new)>(hash: Hash<K>, cap: nat, ops: seq<Op<K, V>>)
    requires cap > 0 && Careful(ops)
    ensures Agrees(RunTable(hash, cap, ops).entries, RunMap(ops))
  {
    if ops != [] {
      var n := |ops| - 1;
      var before := ops[..n];
      assert Careful(before) by {
        assert forall i | 0 <= i < n :: before[i] == ops[i] && before[..i] == ops[..i];
      }
      CarefulRunsRefine(hash, cap, before);
      EveryRunIsValid(hash, cap, before);
      var t, m := RunTable(hash, cap, before), RunMap(before);
      match ops[n]
      case Add(k, v) =>
        if j :| 0 <= j < n && ops[j].Drop? {
          assert k !in m;
        } else {
          assert forall i | 0 <= i < n :: before[i].Add?;
        }
        InsertRefinesExactly(hash, t, m, k, v);
      case Drop(k) => RemoveRefines(hash, t, m, k);
    }
  }

  /** Two keys with one home, the first of them removed. */
  lemma DropTheFirst(hash: Hash<int>, ops: seq<Op<int, int>>)
    requires ops == [Add(0, 1), Add(1, 2), Drop(0)] && forall k :: hash(k) == 0
    ensures RunTable(hash, 16, ops)
         == Table(Blank(16)[0 := Element(0, 1)][1 := Element(1, 2)][0 := Deleted], 2)
  {
    var one: seq<Op<int, int>> := [Add(0, 1)];
    var two := one + [Add(1, 2)];
    assert one[..0] == [] && two[..1] == one && ops[..2] == two;
    var e: seq<Slot<int, int>> := Blank(16);
    assert Along(0, 0, 16) == 0 && Along(0, 1, 16) == 1;
    assert RunTable(hash, 16, one) == Table(e[0 := Element(0, 1)], 1);
    e := e[0 := Element(0, 1)];
    assert Place(e, 0, 1, 0) == Place(e, 0, 1, 1);
    assert RunTable(hash, 16, two) == Table(e[1 := Element(1, 2)], 2);
  }

  /** A run that leaves a key behind a tombstone. */
  lemma HiddenKeyArises()
    ensures var hash: Hash<int> := (_: int) => 0;
      var t := RunTable(hash, 16, [Add(0, 1), Add(1, 2), Drop(0)]);
      Valid(hash, t) && !Clear(hash, t, 1) && Agrees(t.entries, map[1 := 2])
  {
    var hash: Hash<int> := (_: int) => 0;
    var ops: seq<Op<int, int>> := [Add(0, 1), Add(1, 2), Drop(0)];
    DropTheFirst(hash, ops);
    EveryRunIsValid(hash, 16, ops);
    hide RunTable, Valid, Reachable, Count, Place;
    BehindATombstone(hash, RunTable(hash, 16, ops).entries);
  }

  lemma BehindATombstone(hash: Hash<int>, e: seq<Slot<int, int>>)
    requires e == Blank<int, int>(16)[0 := Element(0, 1)][1 := Element(1, 2)][0 := Deleted] && hash(1) == 0
    ensures Shadowed(hash, e, 1) && Agrees(e, map[1 := 2])
  {
    assert Home(hash, 1, 16) == 0 && Dist(0, 0, 16) < Dist(0, 1, 16);
    assert e[0].Deleted? && Holds(e[1], 1);
    assert forall p | 0 <= p < 16 && e[p].Element? :: p == 1;
  }

  // ---- Visiting ----

  function Pairs<K, V>(entries: seq<Slot<K, V>>): seq<(K, V)> {
    if entries == [] then []
    else (if entries[0].Element? then [(entries[0].key, entries[0].value)] else []) + Pairs(entries[1..])
  }

  lemma {:induction false} PairsAreElements<K, V>(entries: seq<Slot<K, V>>)
    ensures |Pairs(entries)| == Count(entries)
    ensures forall k, v :: (k, v) in Pairs(entries) <==> Element(k, v) in entries
    ensures Unique(entries) ==>
      forall i, j | 0 <= i < j < |Pairs(entries)| :: Pairs(entries)[i].0 != Pairs(entries)[j].0
  {
    if entries != [] {
      var rest := entries[1..];
      PairsAreElements(rest);
      assert entries == [entries[0]] + rest;
      if Unique(entries) {
        assert Unique(rest) by {
          assert forall p | 0 <= p < |rest| :: rest[p] == entries[p + 1];
        }
        if entries[0].Element? {
          forall j | 0 <= j < |Pairs(rest)| ensures Pairs(rest)[j].0 != entries[0].key {
            var (k, v) := Pairs(rest)[j];
            assert (k, v) in Pairs(rest);
            var p :| 0 <= p < |rest| && rest[p] == Element(k, v);
            assert entries[p + 1] == Element(k, v);
          }
        }
      }
    }
  }

  /** When the table agrees with a map, `ForEach` visits each of its pairs once. */
  lemma VisitsEachPairOnce<K, V>(entries: seq<Slot<K, V>>, m: map<K, V>)
    requires Agrees(entries, m)
    ensures forall k, v :: (k, v) in Pairs(entries) <==> k in m && m[k] == v
    ensures forall i, j | 0 <= i < j < |Pairs(entries)| :: Pairs(entries)[i].0 != Pairs(entries)[j].0
  {
    PairsAreElements(entries);
    forall k | k in m ensures Element(k, m[k]) in entries {
      var p: nat :| p < |entries| && Holds(entries[p], k);
      assert entries[p] == Element(k, m[k]);
    }
    forall k, v | Element(k, v) in entries ensures k in m && m[k] == v {
      var p :| 0 <= p < |entries| && entries[p] == Element(k, v);
    }
  }

  // ---- As the code runs ----

  class LinearProbingHashmap<K(==), V> {
    const hash: Hash<K>
    var entries: seq<Slot<K, V>>
    var size: nat

    function State(): Table<K, V>
      reads this
    {
      Table(entries, size)
    }

    /** A table without slots is made all the same; every operation on it divides by its
        size, so it is valid exactly if there are slots. */
    constructor (hash: Hash<K>, capacity: nat)
      ensures this.hash == hash && State() == Table(Blank(capacity), 0)
      ensures Valid(hash, State()) <==> capacity > 0
    {
      this.hash := hash;
      entries := Blank(capacity);
      size := 0;
      new;
      BlankCount<K, V>(capacity);
    }

    /** The index of the key's slot, or -1. */
    method InternalFind(key: K) returns (r: int)
      requires Valid(hash, State())
      ensures r == match Find(entries, Home(hash, key, |entries|), key, 0)
                   case None => -1 case Some(p) => p
    {
      var initial := hash(key) % |entries|;
      var bucket := initial;
      ghost var d := 0;
      while entries[bucket].Deleted? || (entries[bucket].Element? && entries[bucket].key != key)
        invariant d < |entries| && bucket == Along(initial, d, |entries|)
        invariant Find(entries, initial, key, 0) == Find(entries, initial, key, d)
        decreases |entries| - d
      {
        NextAlong(initial, d, |entries|);
        bucket := (bucket + 1) % |entries|;
        d := d + 1;
        if bucket == initial {
          return -1;
        }
      }
      r := if entries[bucket].Element? then bucket else -1;
    }

    method LookUp(key: K) returns (r: Option<V>)
      requires Valid(hash, State())
      ensures r.Some? <==> exists p: nat | p < |entries| :: Holds(entries[p], key)
      ensures match Find(entries, Home(hash, key, |entries|), key, 0)
        case None => r.None?
        case Some(p) => p < |entries| && r.Some? && entries[p] == Element(key, r.value)
    {
      FindExactly(hash, entries, key);
      var bucket := InternalFind(key);
      if bucket != -1 {
        return Some(entries[bucket].value);
      }
      r := None;
    }

    method Insert(key: K, value: V)
      requires Valid(hash, State())
      modifies this
      ensures State() == Inserted(hash, old(State()), key, value) && Valid(hash, State())
    {
      InsertedIsValid(hash, State(), key, value);
      InsertWithoutSize(key, value);
      size := size + 1;
    }

    /** Calls `Resize`, which calls this again; the measure shows it goes no deeper. */
    method InsertWithoutSize(key: K, value: V)
      requires Valid(hash, State())
      modifies this`entries
      ensures entries == Inserted(hash, old(State()), key, value).entries
      decreases if NeedsResize(State()) then 2 else 0
    {
      if 4 * size > 3 * |entries| {
        GrownFacts(hash, State());
        Resize();
      }
      var bucket := Probe(key);
      entries := entries[bucket := Element(key, value)];
    }

    /** The probe of `InsertWithoutSize`: the first slot that is not another key's element. */
    method Probe(key: K) returns (bucket: nat)
      requires |entries| > 0 && Count(entries) < |entries|
      ensures Place(entries, Home(hash, key, |entries|), key, 0) == Some(bucket) && bucket < |entries|
    {
      bucket := hash(key) % |entries|;
      ghost var home, d := bucket, 0;
      PlaceStops(entries, home, key, 0);
      while entries[bucket].Element? && entries[bucket].key != key
        invariant d < |entries| && bucket == Along(home, d, |entries|)
        invariant Place(entries, home, key, 0) == Place(entries, home, key, d)
        decreases |entries| - d
      {
        NextAlong(home, d, |entries|);
        bucket := (bucket + 1) % |entries|;
        d := d + 1;
      }
    }

    method Resize()
      requires Valid(hash, State()) && NeedsResize(State())
      modifies this`entries
      ensures State() == Grown(hash, old(State()))
      decreases 1
    {
      var oldEntries := entries;
      entries := Blank(if 2 * |oldEntries| > 2 then 2 * |oldEntries| else 2);
      BlankCount<K, V>(|entries|);
      assert oldEntries[0..] == oldEntries;
      for i := 0 to |oldEntries|
        invariant |entries| == 2 * |oldEntries|
        invariant Reachable(hash, entries)
        invariant Count(entries) + Count(oldEntries[i..]) <= Count(oldEntries)
        invariant Rehash(hash, oldEntries[i..], entries) == Rehash(hash, oldEntries, Blank(2 * |oldEntries|))
      {
        assert oldEntries[i..][1..] == oldEntries[i + 1..];
        if oldEntries[i].Element? {
          PutFacts(hash, entries, oldEntries[i].key, oldEntries[i].value);
          InsertWithoutSize(oldEntries[i].key, oldEntries[i].value);
        }
      }
    }

    method Remove(key: K)
      requires Valid(hash, State())
      modifies this
      ensures State() == Removed(hash, old(State()), key) && Valid(hash, State())
    {
      RemovedIsValid(hash, State(), key);
      FindExactly(hash, entries, key);
      var bucket := InternalFind(key);
      if bucket != -1 {
        entries := entries[bucket := Deleted];
      }
    }

    /** The pairs handed to the action, in order. */
    method ForEach() returns (visited: seq<(K, V)>)
      ensures visited == Pairs(entries)
    {
      visited := [];
      assert entries[0..] == entries;
      for i := 0 to |entries|
        invariant visited + Pairs(entries[i..]) == Pairs(entries)
      {
        assert entries[i..][1..] == entries[i + 1..];
        if entries[i].Element? {
          assert visited + ([(entries[i].key, entries[i].value)] + Pairs(entries[i + 1..]))
              == visited + [(entries[i].key, entries[i].value)] + Pairs(entries[i + 1..]);
          visited := visited + [(entries[i].key, entries[i].value)];
        }
      }
    }
  }
}
