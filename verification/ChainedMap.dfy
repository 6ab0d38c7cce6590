/** The chained hash map as linked nodes, updated in place. Each operation is proved to
    do to the nodes what `Chains` does to the sequences they spell out. */
module ChainedMap {
  import opened Text
  import opened Chains

  /** A node carries, for the proof only, its bucket and a rank that grows along it. */
  class Node<K, V> {
    const key: K
    var value: V
    var next: Node?<K, V>
    ghost const bucket: nat
    ghost const rank: nat

    constructor (key: K, value: V, ghost bucket: nat, ghost rank: nat)
      ensures this.key == key && this.value == value && next == null
      ensures this.bucket == bucket && this.rank == rank
    {
      this.key, this.value, this.next := key, value, null;
      this.bucket, this.rank := bucket, rank;
    }
  }

  /** The node at position `i`, or null past the end. */
  ghost function At<K, V>(spine: seq<Node<K, V>>, i: nat): Node?<K, V> {
    if i < |spine| then spine[i] else null
  }

  /** Nodes of bucket `b` in the order of their ranks, so all different. */
  ghost predicate Ranked<K, V>(spine: seq<Node<K, V>>, b: nat) {
    && (forall i | 0 <= i < |spine| :: spine[i].bucket == b)
    && forall i, j | 0 <= i < j < |spine| :: spine[i].rank < spine[j].rank
  }

  /** `first` starts the list of exactly the nodes in `spine`, all of bucket `b`, which
      spell out `chain`. */
  ghost predicate IsList<K, V>(first: Node?<K, V>, spine: seq<Node<K, V>>, chain: Chain<K, V>, b: nat)
    reads spine
  {
    && first == At(spine, 0)
    && |spine| == |chain|
    && Ranked(spine, b)
    && forall i | 0 <= i < |spine| ::
         spine[i].next == At(spine, i + 1) && chain[i] == (spine[i].key, spine[i].value)
  }

  lemma RankedDistinct<K, V>(spine: seq<Node<K, V>>, b: nat, i: nat)
    requires Ranked(spine, b) && i < |spine|
    ensures forall j | 0 <= j < |spine| && j != i :: spine[j] != spine[i]
  {
    forall j | 0 <= j < |spine| && j != i ensures spine[j] != spine[i] {
      if j < i {
        assert spine[j].rank < spine[i].rank;
      } else {
        assert spine[i].rank < spine[j].rank;
      }
    }
  }

  lemma RankedCut<K, V>(spine: seq<Node<K, V>>, b: nat, i: nat)
    requires Ranked(spine, b) && i < |spine|
    ensures Ranked(spine[..i] + spine[i + 1..], b)
  {
  }

  lemma RankedSnoc<K, V>(spine: seq<Node<K, V>>, b: nat, node: Node<K, V>)
    requires Ranked(spine, b) && node.bucket == b && (spine == [] || spine[|spine| - 1].rank < node.rank)
    ensures Ranked(spine + [node], b)
  {
    var longer := spine + [node];
    forall i, j | 0 <= i < j < |longer| ensures longer[i].rank < longer[j].rank {
      assert j == |spine| && i < |spine| - 1 ==> spine[i].rank < spine[|spine| - 1].rank;
    }
  }

  lemma ListFirst<K, V>(first: Node?<K, V>, spine: seq<Node<K, V>>, chain: Chain<K, V>, b: nat)
    requires IsList(first, spine, chain, b)
    ensures first == At(spine, 0) && |spine| == |chain|
  {
  }

  lemma ListHead<K, V>(first: Node?<K, V>, spine: seq<Node<K, V>>, chain: Chain<K, V>, b: nat)
    requires IsList(first, spine, chain, b)
    ensures |spine| == |chain| && (first == null <==> chain == [])
    ensures first != null ==> chain[0].0 == first.key
  {
  }

  lemma NodeAt<K, V>(first: Node?<K, V>, spine: seq<Node<K, V>>, chain: Chain<K, V>, b: nat, i: nat)
    requires IsList(first, spine, chain, b)
    ensures first == At(spine, 0) && |spine| == |chain|
    ensures i < |spine| ==> spine[i].next == At(spine, i + 1) && chain[i] == (spine[i].key, spine[i].value)
  {
  }

  lemma ListTail<K, V>(first: Node<K, V>, spine: seq<Node<K, V>>, chain: Chain<K, V>, b: nat)
    requires IsList(first, spine, chain, b)
    ensures spine != [] && |chain| == |spine| && IsList(first.next, spine[1..], chain[1..], b)
  {
    RankedCut(spine, b, 0);
    assert spine[..0] + spine[0 + 1..] == spine[1..];
    hide Ranked;
    var rest, left := spine[1..], chain[1..];
    forall i | 0 <= i < |rest| ensures rest[i].next == At(rest, i + 1) && left[i] == (rest[i].key, rest[i].value) {
      NodeAt(first, spine, chain, b, i + 1);
    }
    NodeAt(first, spine, chain, b, 0);
    hide IsList;
    TailIsList(first.next, rest, left, b);
  }

  lemma TailIsList<K, V>(first: Node?<K, V>, spine: seq<Node<K, V>>, chain: Chain<K, V>, b: nat)
    requires first == At(spine, 0) && |spine| == |chain| && Ranked(spine, b)
    requires forall i | 0 <= i < |spine| ::
      spine[i].next == At(spine, i + 1) && chain[i] == (spine[i].key, spine[i].value)
    ensures IsList(first, spine, chain, b)
  {
    hide Ranked;
  }

  lemma ListNone<K, V>(b: nat)
    ensures IsList<K, V>(null, [], [], b)
  {
  }

  lemma ListOne<K, V>(node: Node<K, V>)
    requires node.next == null
    ensures IsList(node, [node], [(node.key, node.value)], node.bucket)
  {
  }

  /** Hang `node` behind the last node of a list. */
  method LinkLast<K, V>(last: Node<K, V>, node: Node<K, V>, ghost spine: seq<Node<K, V>>,
                        ghost chain: Chain<K, V>, ghost b: nat)
    requires spine != [] && IsList(spine[0], spine, chain, b) && last == spine[|spine| - 1]
    requires node !in spine && node.next == null && node.bucket == b && node.rank > last.rank
    modifies last`next
    ensures IsList(spine[0], spine + [node], chain + [(node.key, node.value)], b)
  {
    RankedDistinct(spine, b, |spine| - 1);
    RankedSnoc(spine, b, node);
    hide Ranked;
    last.next := node;
  }

  /** A list whose node before `i` points past it is the list without it. */
  lemma ListWithout<K, V>(spine: seq<Node<K, V>>, chain: Chain<K, V>, b: nat, i: nat)
    requires 0 < i < |spine| == |chain| && Ranked(spine, b)
    requires forall j | 0 <= j < |spine| :: chain[j] == (spine[j].key, spine[j].value)
    requires forall j | 0 <= j < |spine| && j != i - 1 :: spine[j].next == At(spine, j + 1)
    requires spine[i - 1].next == At(spine, i + 1)
    ensures IsList(spine[0], spine[..i] + spine[i + 1..], chain[..i] + chain[i + 1..], b)
  {
    RankedCut(spine, b, i);
    hide Ranked;
    var shorter, left := spine[..i] + spine[i + 1..], chain[..i] + chain[i + 1..];
    forall j | 0 <= j < |shorter|
      ensures shorter[j].next == At(shorter, j + 1) && left[j] == (shorter[j].key, shorter[j].value)
    {
      if j < i {
        assert shorter[j] == spine[j];
      } else {
        assert shorter[j] == spine[j + 1];
      }
    }
  }

  /** Take the node after `prev`, at position `i`, out of a list. */
  method UnlinkNext<K, V>(prev: Node<K, V>, ghost spine: seq<Node<K, V>>, ghost chain: Chain<K, V>,
                          ghost b: nat, ghost i: nat)
    requires 0 < i < |spine| && IsList(spine[0], spine, chain, b) && prev == spine[i - 1]
    modifies prev`next
    ensures IsList(spine[0], spine[..i] + spine[i + 1..], chain[..i] + chain[i + 1..], b)
  {
    RankedDistinct(spine, b, i - 1);
    hide Ranked;
    prev.next := prev.next.next;
    ListWithout(spine, chain, b, i);
  }

  class LinkedListHashmap<K(==), V> {
    const hash: Hash<K>
    var entries: seq<Node?<K, V>>
    var size: nat
    ghost var spines: seq<seq<Node<K, V>>>
    ghost var chains: seq<Chain<K, V>>
    ghost var nodes: set<Node<K, V>>
    ghost var contents: map<K, V>  // the map this object stands for

    ghost predicate Linked(b: nat)
      reads this`entries, this`spines, this`chains, this`nodes, nodes
      requires b < |entries| && |entries| == |spines| == |chains|
    {
      && (forall i | 0 <= i < |spines[b]| :: spines[b][i] in nodes)
      && IsList(entries[b], spines[b], chains[b], b)
    }

    ghost predicate Shape()
      reads this`entries, this`spines, this`chains, this`nodes, nodes
    {
      && |entries| == |spines| == |chains|
      && forall b: nat | b < |entries| :: Linked(b)
    }

    /** The sequences the nodes spell out. */
    ghost function State(): Table<K, V>
      reads this
    {
      Table(chains, size)
    }

    /** The nodes are in shape and represent `contents`. */
    ghost predicate Valid()
      reads this, nodes
    {
      Shape() && Represents(hash, State(), contents)
    }

    constructor (hash: Hash<K>, capacity: nat)
      ensures this.hash == hash && Valid() && fresh(nodes)
      ensures contents == map[] && |entries| == capacity
    {
      this.hash := hash;
      entries := seq(capacity, _ => null);
      size := 0;
      spines := seq(capacity, _ => []);
      chains := seq(capacity, _ => []);
      nodes := {};
      contents := map[];
      new;
      BlankRepresents<K, V>(hash, capacity);
    }

    method LookUp(key: K) returns (r: Option<V>)
      requires Valid()
      ensures r == if key in contents then Some(contents[key]) else None
    {
      LookUpRefines(hash, State(), contents, key);
      hide IsList, Ranked, Represents;
      if |entries| == 0 {
        return None;
      }
      var b := hash(key) % |entries|;
      assert Linked(b);
      var curr := entries[b];
      ghost var i := 0;
      NodeAt(entries[b], spines[b], chains[b], b, 0);
      while curr != null && curr.key != key
        invariant i <= |chains[b]| == |spines[b]| && curr == At(spines[b], i)
        invariant forall j | 0 <= j < i :: chains[b][j].0 != key
        decreases |chains[b]| - i
      {
        NodeAt(entries[b], spines[b], chains[b], b, i);
        curr := curr.next;
        i := i + 1;
      }
      NodeAt(entries[b], spines[b], chains[b], b, i);
      IndexIs(chains[b], key, i);
      if curr != null {
        return Some(curr.value);
      }
      r := None;
    }

    /** Nodes of bucket `b` are in no other bucket. */
    lemma Apart(b: nat, node: Node<K, V>)
      requires Shape() && b < |entries| && node in spines[b]
      ensures forall c: nat | c < |entries| && c != b :: node !in spines[c]
    {
      assert Linked(b);
      forall c: nat | c < |entries| && c != b ensures node !in spines[c] {
        assert Linked(c);
      }
    }

    /** Overwrite the value of the node at position `i` of bucket `b`. */
    method SetValue(node: Node<K, V>, ghost b: nat, ghost i: nat, value: V)
      requires Shape() && b < |entries| && i < |spines[b]| && node == spines[b][i]
      modifies this`chains, nodes
      ensures Shape() && i < |old(chains[b])|
      ensures chains == old(chains)[b := old(chains)[b][i := (node.key, value)]]
    {
      assert Linked(b);
      Apart(b, node);
      node.value := value;
      chains := chains[b := chains[b][i := (node.key, value)]];
      forall c: nat | c < |entries| ensures Linked(c) {
        assert old(Linked(c));
      }
    }

    /** Hang a new node behind the last one of bucket `b`, or in the empty bucket. */
    method Append(last: Node?<K, V>, b: nat, key: K, value: V)
      requires Shape() && b < |entries|
      requires last == if spines[b] == [] then null else spines[b][|spines[b]| - 1]
      modifies this`entries, this`spines, this`chains, this`nodes, nodes
      ensures Shape() && fresh(nodes - old(nodes)) && old(nodes) <= nodes
      ensures chains == old(chains)[b := old(chains)[b] + [(key, value)]]
    {
      hide IsList, Ranked;
      assert Linked(b);
      ghost var spine, chain := spines[b], chains[b];
      ListFirst(entries[b], spine, chain, b);
      var node := new Node(key, value, b, if last == null then 0 else last.rank + 1);
      if last == null {
        entries := entries[b := node];
        ListOne(node);
      } else {
        Apart(b, last);
        LinkLast(last, node, spine, chain, b);
      }
      spines := spines[b := spine + [node]];
      chains := chains[b := chain + [(key, value)]];
      nodes := nodes + {node};
      assert spine == [] ==> spine + [node] == [node] && chain + [(key, value)] == [(key, value)];
      assert Linked(b);
      forall c: nat | c < |entries| && c != b ensures Linked(c) {
        assert old(Linked(c));
      }
    }

    method InsertWithoutResize(key: K, value: V)
      requires Shape() && |entries| > 0
      modifies this`entries, this`size, this`spines, this`chains, this`nodes, nodes
      ensures Shape() && fresh(nodes - old(nodes)) && |entries| == old(|entries|)
      ensures State() == PutIn(hash, old(State()), key, value)
    {
      hide IsList, Ranked, IndexOf;
      var b := hash(key) % |entries|;
      assert Linked(b);
      NodeAt(entries[b], spines[b], chains[b], b, 0);
      if entries[b] == null {
        IndexIs(chains[b], key, 0);
        Append(null, b, key, value);
        size := size + 1;
        return;
      }
      var curr, i := Seek(b, key);
      if curr.key == key {
        IndexIs(chains[b], key, i);
        SetValue(curr, b, i, value);
      } else {
        IndexIs(chains[b], key, i + 1);
        Append(curr, b, key, value);
        size := size + 1;
      }
    }

    /** The search of `InsertWithoutResize`: the node that holds `key`, or the last one. */
    method Seek(b: nat, key: K) returns (curr: Node<K, V>, ghost i: nat)
      requires Shape() && b < |entries| && entries[b] != null
      ensures |chains[b]| == |spines[b]| && i < |spines[b]| && curr == spines[b][i]
      ensures chains[b][i].0 == curr.key && forall j | 0 <= j < i :: chains[b][j].0 != key
      ensures curr.key == key || i + 1 == |spines[b]|
    {
      hide IsList, Ranked;
      assert Linked(b);
      curr, i := entries[b], 0;
      NodeAt(entries[b], spines[b], chains[b], b, 0);
      while curr.next != null && curr.key != key
        invariant |chains[b]| == |spines[b]| && i < |spines[b]| && curr == spines[b][i]
        invariant curr.next == At(spines[b], i + 1) && chains[b][i].0 == curr.key
        invariant forall j | 0 <= j < i :: chains[b][j].0 != key
        decreases |chains[b]| - i
      {
        curr := curr.next;
        i := i + 1;
        NodeAt(entries[b], spines[b], chains[b], b, i);
      }
    }

    /** Every pair in the order the action gets them: each pair of the map, once. */
    method ForEach() returns (visited: seq<(K, V)>)
      requires Valid()
      ensures Distinct(visited)
      ensures forall k, v :: (k, v) in visited <==> k in contents && contents[k] == v
    {
      visited := Flatten();
      VisitsEachPairOnce(hash, State(), contents);
    }

    method Flatten() returns (visited: seq<(K, V)>)
      requires Shape()
      ensures visited == Flat(chains)
    {
      hide Linked;
      visited := [];
      assert chains[0..] == chains;
      for b := 0 to |entries|
        invariant visited + Flat(chains[b..]) == Flat(chains)
      {
        assert chains[b..][0] == chains[b] && chains[b..][1..] == chains[b + 1..];
        ghost var rest := Flat(chains[b + 1..]);
        assert visited + (chains[b] + rest) == (visited + chains[b]) + rest;
        visited := VisitBucket(b, visited);
      }
    }

    /** The inner loop: the pairs of one bucket after those already visited. */
    method VisitBucket(b: nat, before: seq<(K, V)>) returns (visited: seq<(K, V)>)
      requires Shape() && b < |entries|
      ensures visited == before + chains[b]
    {
      hide IsList, Ranked;
      assert Linked(b);
      visited := before;
      var curr := entries[b];
      ghost var i := 0;
      NodeAt(entries[b], spines[b], chains[b], b, 0);
      while curr != null
        invariant i <= |chains[b]| && curr == At(spines[b], i)
        invariant visited == before + chains[b][..i]
        decreases |chains[b]| - i
      {
        NodeAt(entries[b], spines[b], chains[b], b, i);
        visited := visited + [(curr.key, curr.value)];
        curr := curr.next;
        i := i + 1;
      }
    }

    method Resize()
      requires Shape()
      modifies this`entries, this`size, this`spines, this`chains, this`nodes, nodes
      ensures Shape() && fresh(nodes - old(nodes)) && |entries| > 0
      ensures State() == Grown(hash, old(State()))
    {
      hide IsList, Ranked, PutIn, Flat;
      var flat := Flatten();
      entries := seq(Max(2, 2 * size), _ => null);
      spines := seq(|entries|, _ => []);
      chains := seq(|entries|, _ => []);
      nodes := {};
      size := 0;
      assert State() == Blank(|entries|);
      forall b: nat | b < |entries| ensures Linked(b) {
        ListNone<K, V>(b);
      }
      assert flat[0..] == flat;
      for i := 0 to |flat|
        invariant Shape() && |entries| > 0 && fresh(nodes)
        invariant PutAll(hash, State(), flat[i..]) == Grown(hash, old(State()))
      {
        assert flat[i..][1..] == flat[i + 1..];
        InsertWithoutResize(flat[i].0, flat[i].1);
      }
    }

    method Insert(key: K, value: V)
      requires Valid()
      modifies this, nodes
      ensures Valid() && fresh(nodes - old(nodes))
      ensures contents == old(contents)[key := value]
      ensures State() == Inserted(hash, old(State()), key, value)
      ensures 4 * size <= 3 * |entries| + 4
    {
      InsertRefines(hash, State(), contents, key, value);
      if |entries| == 0 || 4 * size > 3 * |entries| {
        Resize();
      }
      InsertWithoutResize(key, value);
      contents := contents[key := value];
    }

    method Remove(key: K)
      requires Valid()
      modifies this, nodes
      ensures Valid() && nodes == old(nodes)
      ensures contents == old(contents) - {key}
      ensures State() == Removed(hash, old(State()), key)
    {
      hide Represents, Removed, Found;
      RemoveRefines(hash, State(), contents, key);
      FoundIsCounted(hash, State(), contents, key);
      Unlink(key);
      contents := contents - {key};
    }

    method Unlink(key: K)
      requires Shape() && (Found(hash, State(), key).Some? ==> size > 0)
      modifies this`entries, this`size, this`spines, this`chains, nodes
      ensures Shape()
      ensures State() == Removed(hash, old(State()), key)
    {
      hide IsList, Ranked, IndexOf;
      if |entries| == 0 {
        return;
      }
      var b := hash(key) % |entries|;
      assert Linked(b);
      ListHead(entries[b], spines[b], chains[b], b);
      if entries[b] == null {
        IndexIs(chains[b], key, 0);
        return;
      }
      if entries[b].key == key {
        IndexIs(chains[b], key, 0);
        assert chains[b][..0] + chains[b][0 + 1..] == chains[b][1..];
        DropFirst(b);
        size := size - 1;
        return;
      }
      var curr, i := Before(b, key);
      IndexIs(chains[b], key, i + 1);
      if curr.next != null {
        DropAfter(curr, b, i + 1);
        size := size - 1;
      }
    }

    /** The search of `Remove`: the node before the one that holds `key`, or the last. */
    method Before(b: nat, key: K) returns (curr: Node<K, V>, ghost i: nat)
      requires Shape() && b < |entries| && entries[b] != null && entries[b].key != key
      ensures |chains[b]| == |spines[b]| && i < |spines[b]| && curr == spines[b][i]
      ensures forall j | 0 <= j <= i :: chains[b][j].0 != key
      ensures curr.next == At(spines[b], i + 1)
      ensures curr.next != null ==> chains[b][i + 1].0 == key
    {
      hide IsList, Ranked;
      assert Linked(b);
      curr, i := entries[b], 0;
      NodeAt(entries[b], spines[b], chains[b], b, 0);
      while curr.next != null && curr.next.key != key
        invariant |chains[b]| == |spines[b]| && i < |spines[b]| && curr == spines[b][i]
        invariant curr.next == At(spines[b], i + 1)
        invariant forall j | 0 <= j <= i :: chains[b][j].0 != key
        decreases |chains[b]| - i
      {
        curr := curr.next;
        i := i + 1;
        NodeAt(entries[b], spines[b], chains[b], b, i);
      }
      NodeAt(entries[b], spines[b], chains[b], b, i + 1);
    }

    /** Unlink the first node of bucket `b`. */
    method DropFirst(b: nat)
      requires Shape() && b < |entries| && entries[b] != null
      modifies this`entries, this`spines, this`chains
      ensures Shape() && old(chains[b]) != []
      ensures chains == old(chains)[b := old(chains)[b][1..]]
    {
      hide IsList, Ranked;
      assert Linked(b);
      ListTail(entries[b], spines[b], chains[b], b);
      entries := entries[b := entries[b].next];
      spines := spines[b := spines[b][1..]];
      chains := chains[b := chains[b][1..]];
      assert Linked(b);
      forall c: nat | c < |entries| && c != b ensures Linked(c) {
        assert old(Linked(c));
      }
    }

    /** Unlink the node at position `i` of bucket `b`, which comes after `prev`. */
    method DropAfter(prev: Node<K, V>, b: nat, ghost i: nat)
      requires Shape() && b < |entries| && 0 < i < |spines[b]| && prev == spines[b][i - 1]
      modifies this`spines, this`chains, nodes
      ensures Shape() && i < |old(chains[b])|
      ensures chains == old(chains)[b := old(chains)[b][..i] + old(chains)[b][i + 1..]]
    {
      hide IsList, Ranked;
      assert Linked(b);
      ListFirst(entries[b], spines[b], chains[b], b);
      Apart(b, prev);
      UnlinkNext(prev, spines[b], chains[b], b, i);
      spines := spines[b := spines[b][..i] + spines[b][i + 1..]];
      chains := chains[b := chains[b][..i] + chains[b][i + 1..]];
      assert Linked(b);
      forall c: nat | c < |entries| && c != b ensures Linked(c) {
        assert old(Linked(c));
      }
    }
  }

  lemma IndexIs<K, V>(c: Chain<K, V>, key: K, i: nat)
    requires i <= |c| && (forall j | 0 <= j < i :: c[j].0 != key) && (i < |c| ==> c[i].0 == key)
    ensures IndexOf(c, key) == i
  {
  }

  lemma FoundIsCounted<K, V>(hash: Hash<K>, t: Table<K, V>, m: map<K, V>, key: K)
    requires Represents(hash, t, m)
    ensures Found(hash, t, key).Some? ==> t.size > 0
  {
    LookUpRefines(hash, t, m, key);
    assert key in m ==> |m| > 0;
  }
}
