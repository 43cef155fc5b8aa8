/** Chained hash tables as values: where a key belongs, what a lookup finds, and how moving,
    adding and removing a node changes that. */
module HashTable {
  import opened Coding

  type Key = Bytes

  datatype Node<V> = Node(key: Key, value: V)

  type Chain<V> = seq<Node<V>>

  type Buckets<V> = seq<Chain<V>>

  function Pow2(k: nat): (r: nat)
    ensures r >= 1
  {
    if k == 0 then 1 else 2 * Pow2(k - 1)
  }

  ghost predicate IsPow2(n: nat) {
    exists k: nat :: n == Pow2(k)
  }

  /** Bitwise and. */
  function And(a: nat, b: nat): nat {
    if a == 0 || b == 0 then 0
    else (if a % 2 == 1 && b % 2 == 1 then 1 else 0) + 2 * And(a / 2, b / 2)
  }

  /** Masking with size - 1 is the remainder when the size is a power of two. */
  lemma {:induction false} MaskIsRemainder(h: nat, k: nat)
    ensures And(h, Pow2(k) - 1) == h % Pow2(k)
    decreases k
  {
    if k > 0 {
      var p := Pow2(k - 1);
      MaskIsRemainder(h / 2, k - 1);
      AndOddMask(h, p);
      HalveRemainder(h, p);
      calc {
        And(h, Pow2(k) - 1);
        And(h, 2 * p - 1);
        h % 2 + 2 * And(h / 2, p - 1);
        h % 2 + 2 * ((h / 2) % p);
        h % (2 * p);
        h % Pow2(k);
      }
    }
  }

  lemma AndOddMask(h: nat, p: nat)
    requires p > 0
    ensures And(h, 2 * p - 1) == h % 2 + 2 * And(h / 2, p - 1)
  {
    assert (2 * p - 1) % 2 == 1 && (2 * p - 1) / 2 == p - 1;
    assert And(h / 2, 0) == 0;
  }

  lemma HalveRemainder(h: nat, p: nat)
    requires p > 0
    ensures h % (2 * p) == h % 2 + 2 * ((h / 2) % p)
  {
    var q, r := (h / 2) / p, (h / 2) % p;
    assert h / 2 == p * q + r;
    assert h == 2 * (h / 2) + h % 2;
    assert h == (2 * p) * q + (2 * r + h % 2) by {
      assert 2 * (p * q) == (2 * p) * q;
    }
    assert 0 <= 2 * r + h % 2 < 2 * p;
    QuotientIs(h, 2 * p, q, 2 * r + h % 2);
  }

  /** hash & sizemask. */
  function Index(h: nat, size: nat): nat
    requires size > 0
  {
    And(h, size - 1)
  }

  lemma IndexInRange(h: nat, size: nat)
    requires IsPow2(size)
    ensures size > 0 && Index(h, size) < size && Index(h, size) == h % size
  {
    var k: nat :| size == Pow2(k);
    MaskIsRemainder(h, k);
  }

  function FindIn<V>(chain: Chain<V>, k: Key): Option<V> {
    if chain == [] then None
    else if chain[0].key == k then Some(chain[0].value)
    else FindIn(chain[1..], k)
  }

  ghost predicate Distinct<V>(chain: Chain<V>) {
    forall i, j :: 0 <= i < j < |chain| ==> chain[i].key != chain[j].key
  }

  lemma {:induction false} FindInIff<V>(chain: Chain<V>, k: Key)
    ensures FindIn(chain, k).Some? <==> exists i :: 0 <= i < |chain| && chain[i].key == k
  {
    if chain != [] {
      FindInIff(chain[1..], k);
      if i :| 0 <= i < |chain| && chain[i].key == k {
        assert i > 0 ==> chain[1..][i - 1].key == k;
      }
    }
  }

  /** Every node sits in the bucket its hash selects, and no key occurs twice. */
  ghost predicate Placed<V>(t: Buckets<V>, hash: Key -> nat) {
    && (t != [] ==> IsPow2(|t|))
    && (forall b, i :: 0 <= b < |t| && 0 <= i < |t[b]| ==> Index(hash(t[b][i].key), |t|) == b)
    && (forall b :: 0 <= b < |t| ==> Distinct(t[b]))
  }

  ghost function Lookup<V>(t: Buckets<V>, hash: Key -> nat, k: Key): Option<V>
    requires Placed(t, hash)
  {
    if t == [] then None
    else
      IndexInRange(hash(k), |t|);
      FindIn(t[Index(hash(k), |t|)], k)
  }

  /** The number of nodes. */
  function Size<V>(t: Buckets<V>): nat {
    if t == [] then 0 else |t[0]| + Size(t[1..])
  }

  lemma {:induction false} SizeUpdate<V>(t: Buckets<V>, b: nat, chain: Chain<V>)
    requires b < |t|
    ensures Size(t[b := chain]) == Size(t) - |t[b]| + |chain|
  {
    if b == 0 {
      assert t[b := chain][1..] == t[1..];
    } else {
      assert t[b := chain][1..] == t[1..][b - 1 := chain];
      SizeUpdate(t[1..], b - 1, chain);
    }
  }

  lemma {:induction false} EmptySize<V>(t: Buckets<V>)
    ensures Size(t) == 0 <==> forall b :: 0 <= b < |t| ==> t[b] == []
  {
    if t != [] {
      EmptySize(t[1..]);
      assert forall b :: 0 < b < |t| ==> t[b] == t[1..][b - 1];
    }
  }

  /** A key is in its bucket or nowhere. */
  lemma LookupNone<V>(t: Buckets<V>, hash: Key -> nat, k: Key)
    requires Placed(t, hash) && Lookup(t, hash, k).None?
    ensures forall b, i :: 0 <= b < |t| && 0 <= i < |t[b]| ==> t[b][i].key != k
  {
    if t != [] {
      IndexInRange(hash(k), |t|);
      FindInIff(t[Index(hash(k), |t|)], k);
    }
  }

  /** Replacing one bucket changes lookups of the keys of that bucket only. */
  lemma LookupElsewhere<V>(t: Buckets<V>, hash: Key -> nat, b: nat, chain: Chain<V>, k: Key)
    requires b < |t| && Placed(t, hash) && Placed(t[b := chain], hash)
    requires FindIn(chain, k) == FindIn(t[b], k) || Index(hash(k), |t|) != b
    ensures Lookup(t[b := chain], hash, k) == Lookup(t, hash, k)
  {
    IndexInRange(hash(k), |t|);
  }

  /** Taking the first node off a chain. */
  lemma PopNode<V>(t: Buckets<V>, hash: Key -> nat, b: nat, k: Key)
    requires Placed(t, hash) && b < |t| && t[b] != []
    ensures Placed(t[b := t[b][1..]], hash)
    ensures Lookup(t[b := t[b][1..]], hash, k) == if k == t[b][0].key then None else Lookup(t, hash, k)
    ensures Lookup(t, hash, t[b][0].key) == Some(t[b][0].value)
  {
    var rest := t[b][1..];
    var t' := t[b := rest];
    IndexInRange(hash(k), |t|);
    IndexInRange(hash(t[b][0].key), |t|);
    if k == t[b][0].key {
      FindInIff(rest, k);
      assert forall i :: 0 <= i < |rest| ==> rest[i] == t[b][i + 1];
    } else {
      LookupElsewhere(t, hash, b, rest, k);
    }
  }

  /** Linking a new key in at the head of its chain. */
  lemma PushNode<V>(t: Buckets<V>, hash: Key -> nat, node: Node<V>, k: Key)
    requires Placed(t, hash) && t != [] && Lookup(t, hash, node.key).None?
    ensures
      var b := Index(hash(node.key), |t|);
      && b < |t|
      && Placed(t[b := [node] + t[b]], hash)
      && Lookup(t[b := [node] + t[b]], hash, k) == if k == node.key then Some(node.value) else Lookup(t, hash, k)
  {
    IndexInRange(hash(node.key), |t|);
    IndexInRange(hash(k), |t|);
    var b := Index(hash(node.key), |t|);
    LookupNone(t, hash, node.key);
    var chain := [node] + t[b];
    var t' := t[b := chain];
    assert chain[1..] == t[b];
    assert Distinct(chain);
    assert Placed(t', hash);
  }

  function Without<V>(chain: Chain<V>, k: Key): Chain<V> {
    if chain == [] then []
    else if chain[0].key == k then chain[1..]
    else [chain[0]] + Without(chain[1..], k)
  }

  lemma {:induction false} WithoutFacts<V>(chain: Chain<V>, k: Key, x: Key)
    requires Distinct(chain)
    ensures Distinct(Without(chain, k)) && forall n :: n in Without(chain, k) ==> n in chain
    ensures FindIn(Without(chain, k), x) == if x == k then None else FindIn(chain, x)
    ensures |Without(chain, k)| == |chain| - if FindIn(chain, k).Some? then 1 else 0
  {
    if chain != [] {
      var rest := chain[1..];
      WithoutFacts(rest, k, x);
      if chain[0].key == k {
        FindInIff(rest, k);
      } else {
        assert Without(chain, k)[1..] == Without(rest, k);
        assert forall n :: n in rest ==> n.key != chain[0].key;
      }
    }
  }

  /** Unlinking a key from its chain. */
  lemma RemoveNode<V>(t: Buckets<V>, hash: Key -> nat, k: Key, x: Key)
    requires Placed(t, hash) && t != []
    ensures
      var b := Index(hash(k), |t|);
      && b < |t|
      && Placed(t[b := Without(t[b], k)], hash)
      && Lookup(t[b := Without(t[b], k)], hash, x) == if x == k then None else Lookup(t, hash, x)
  {
    IndexInRange(hash(k), |t|);
    IndexInRange(hash(x), |t|);
    var b := Index(hash(k), |t|);
    WithoutFacts(t[b], k, x);
    var chain := Without(t[b], k);
    assert forall i :: 0 <= i < |chain| ==> chain[i] in t[b];
    assert Placed(t[b := chain], hash);
  }
}
