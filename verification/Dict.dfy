/** The dictionary with incremental rehashing: two tables that together are one map in every
    intermediate state. */
module Dict {
  import opened Coding
  import opened HashTable

  const INITIAL_SIZE: nat := 4
  const FORCE_RESIZE_RATIO: nat := 5
  const MIN_FILL: nat := 10

  /** The dictionary as values. While rehashing, buckets of t0 below `rehashidx` are empty and no key
      is in both tables; otherwise t1 is not in use. */
  ghost predicate Consistent<V>(t0: Buckets<V>, t1: Buckets<V>, used0: nat, used1: nat, rehashidx: int,
                                hash: Key -> nat)
  {
    && Placed(t0, hash) && Placed(t1, hash)
    && used0 == Size(t0) && used1 == Size(t1)
    && -1 <= rehashidx
    && (rehashidx == -1 ==> t1 == [])
    && (rehashidx >= 0 ==>
          && rehashidx <= |t0| && t1 != []
          && (forall b :: 0 <= b < rehashidx ==> t0[b] == [])
          && (forall k :: Lookup(t0, hash, k).None? || Lookup(t1, hash, k).None?))
  }

  /** What the two tables say about a key. */
  ghost function Both<V>(t0: Buckets<V>, t1: Buckets<V>, hash: Key -> nat, k: Key): Option<V>
    requires Placed(t0, hash) && Placed(t1, hash)
  {
    if Lookup(t0, hash, k).Some? then Lookup(t0, hash, k) else Lookup(t1, hash, k)
  }

  ghost predicate Represents<V>(t0: Buckets<V>, t1: Buckets<V>, hash: Key -> nat, contents: map<Key, V>)
    requires Placed(t0, hash) && Placed(t1, hash)
  {
    forall k :: Both(t0, t1, hash, k) == if k in contents then Some(contents[k]) else None
  }

  /** Moving the head of a chain of t0 to the head of its chain of t1. */
  lemma MoveNode<V>(t0: Buckets<V>, t1: Buckets<V>, used0: nat, used1: nat, r: nat, hash: Key -> nat,
                    contents: map<Key, V>)
    requires Consistent(t0, t1, used0, used1, r, hash) && Represents(t0, t1, hash, contents)
    requires r < |t0| && t0[r] != []
    ensures
      var node := t0[r][0];
      var h := Index(hash(node.key), |t1|);
      && h < |t1| && used0 > 0
      && Consistent(t0[r := t0[r][1..]], t1[h := [node] + t1[h]], used0 - 1, used1 + 1, r, hash)
      && Represents(t0[r := t0[r][1..]], t1[h := [node] + t1[h]], hash, contents)
  {
    var node := t0[r][0];
    PopNode(t0, hash, r, node.key);
    assert Lookup(t1, hash, node.key).None?;
    PushNode(t1, hash, node, node.key);
    var h := Index(hash(node.key), |t1|);
    var t0', t1' := t0[r := t0[r][1..]], t1[h := [node] + t1[h]];
    SizeUpdate(t0, r, t0[r][1..]);
    SizeUpdate(t1, h, [node] + t1[h]);
    forall k
      ensures Lookup(t0', hash, k).None? || Lookup(t1', hash, k).None?
      ensures Both(t0', t1', hash, k) == Both(t0, t1, hash, k)
    {
      PopNode(t0, hash, r, k);
      PushNode(t1, hash, node, k);
    }
  }

  class Dictionary<V> {
    const hash: Key -> nat
    var ht0: array<Chain<V>>
    var ht1: array<Chain<V>>
    var used0: nat
    var used1: nat
    var rehashidx: int
    var canResize: bool
    ghost var contents: map<Key, V>

    /** The two tables are one map; this holds also inside a rehashing step. */
    ghost predicate Coherent()
      reads this, ht0, ht1
    {
      && ht0 != ht1
      && Consistent(ht0[..], ht1[..], used0, used1, rehashidx, hash)
      && Represents(ht0[..], ht1[..], hash, contents)
    }

    ghost predicate Valid()
      reads this, ht0, ht1
    {
      Coherent() && rehashidx < ht0.Length
    }

    predicate IsRehashing()
      reads this
    {
      rehashidx != -1
    }

    constructor (hash: Key -> nat)
      ensures Valid() && contents == map[] && !IsRehashing() && canResize && this.hash == hash
      ensures fresh(ht0) && fresh(ht1)
    {
      this.hash := hash;
      ht0 := new Chain<V>[0];
      ht1 := new Chain<V>[0];
      used0, used1, rehashidx, canResize := 0, 0, -1, true;
      contents := map[];
    }

    /** Moves every node of the current bucket, one by one, to its chain in the new table. */
    method MoveBucket()
      requires Coherent() && 0 <= rehashidx < ht0.Length && ht0[rehashidx] != []
      modifies this`used0, this`used1, ht0, ht1
      ensures Coherent() && ht0[rehashidx] == [] && used0 < old(used0)
    {
      var de := ht0[rehashidx];
      ghost var t0 := ht0[..];
      assert t0[rehashidx := de] == t0;
      while de != []
        invariant ht0[..] == t0
        invariant Consistent(t0[rehashidx := de], ht1[..], used0, used1, rehashidx, hash)
        invariant Represents(t0[rehashidx := de], ht1[..], hash, contents)
        invariant used0 <= old(used0) && (de == [] ==> used0 < old(used0))
        decreases |de|
      {
        ghost var now := t0[rehashidx := de];
        MoveNode(now, ht1[..], used0, used1, rehashidx, hash, contents);
        assert now[rehashidx := de[1..]] == t0[rehashidx := de[1..]];
        var node := de[0];
        var h := Index(hash(node.key), ht1.Length);
        ghost var t1 := ht1[..];
        ht1[h] := [node] + ht1[h];
        assert ht1[..] == t1[h := [node] + t1[h]];
        used0 := used0 - 1;
        used1 := used1 + 1;
        de := de[1..];
      }
      ht0[rehashidx] := [];
      assert ht0[..] == t0[rehashidx := []];
    }

    /** The old table is empty: the new one takes its place. */
    method FinishRehash()
      requires Coherent() && IsRehashing() && used0 == 0
      modifies this
      ensures Valid() && !IsRehashing() && contents == old(contents)
      ensures ht0 == old(ht1) && fresh(ht1) && canResize == old(canResize)
    {
      EmptyTable(ht0[..], hash);
      ht0 := ht1;
      used0 := used1;
      ht1 := new Chain<V>[0];
      used1 := 0;
      rehashidx := -1;
    }

    /** n steps of incremental rehashing; the map stays what it was. `visits` and `moved` count the
        empty buckets passed and the buckets emptied. */
    method Rehash(n0: int) returns (more: bool, ghost visits: nat, ghost moved: nat)
      requires Valid()
      modifies this, ht0, ht1
      ensures Valid() && contents == old(contents) && canResize == old(canResize)
      ensures ht0 in {old(ht0), old(ht1)} && (ht1 == old(ht1) || fresh(ht1))
      ensures more <==> IsRehashing()
      ensures more ==> ht0 == old(ht0) && ht1 == old(ht1) && rehashidx == old(rehashidx) + visits + moved
      ensures n0 >= 0 ==> visits <= 10 * n0 && moved <= n0
      ensures old(IsRehashing()) ==> old(rehashidx) + visits + moved <= old(ht0.Length)
      ensures n0 != 0 && more ==> rehashidx > old(rehashidx)
      ensures n0 > 0 && more ==> moved == n0 || visits == 10 * n0
      ensures n0 < 0 ==> !more
    {
      visits, moved := 0, 0;
      var n := n0;
      var emptyVisits := n * 10;
      if !IsRehashing() {
        return false, 0, 0;
      }
      while n != 0 && used0 != 0
        invariant Coherent() && IsRehashing() && contents == old(contents) && canResize == old(canResize)
        invariant ht0 == old(ht0) && ht1 == old(ht1)
        invariant rehashidx == old(rehashidx) + visits + moved
        invariant n == n0 - moved && emptyVisits == 10 * n0 - visits
        invariant n0 > 0 ==> n >= 0 && emptyVisits > 0
        invariant n0 == 0 ==> n == 0 && visits == 0
        invariant n0 < 0 ==> emptyVisits < 0
        invariant visits + moved == 0 ==> n == n0
        decreases used0
      {
        n := n - 1;
        var done;
        ghost var passed;
        done, emptyVisits, passed := RehashOne(emptyVisits);
        visits := visits + passed;
        if done {
          return true, visits, moved;
        }
        moved := moved + 1;
      }
      if used0 == 0 {
        FinishRehash();
        return false, visits, moved;
      }
      NonEmptyAhead(ht0[..], rehashidx);
      return true, visits, moved;
    }

    /** One round of the loop: the next non-empty bucket is emptied, if the budget reaches it. */
    method RehashOne(budget: int) returns (spent: bool, left: int, ghost passed: nat)
      requires Coherent() && IsRehashing() && used0 != 0 && budget != 0
      modifies this`rehashidx, this`used0, this`used1, ht0, ht1
      ensures Coherent() && IsRehashing()
      ensures rehashidx == old(rehashidx) + passed + (if spent then 0 else 1) && left == budget - passed
      ensures (spent <==> left == 0) && (budget > 0 ==> left >= 0)
      ensures if spent then rehashidx < ht0.Length else used0 < old(used0)
    {
      spent, left, passed := SkipEmpty(budget);
      if !spent {
        MoveBucket();
        rehashidx := rehashidx + 1;
      }
    }

    /** Passes empty buckets up to the next non-empty one, giving up when the budget is spent. The
        scan cannot leave the table, because nodes remain. */
    method SkipEmpty(budget: int) returns (spent: bool, left: int, ghost passed: nat)
      requires Coherent() && IsRehashing() && used0 != 0 && budget != 0
      modifies this`rehashidx
      ensures Coherent() && IsRehashing() && rehashidx < ht0.Length
      ensures rehashidx == old(rehashidx) + passed && left == budget - passed
      ensures spent <==> left == 0
      ensures budget > 0 ==> left >= 0
      ensures !spent ==> ht0[rehashidx] != []
    {
      left, passed := budget, 0;
      NonEmptyAhead(ht0[..], rehashidx);
      while ht0[rehashidx] == []
        invariant Coherent() && IsRehashing() && rehashidx < ht0.Length
        invariant exists b :: rehashidx <= b < ht0.Length && ht0[b] != []
        invariant rehashidx == old(rehashidx) + passed && left == budget - passed && left != 0
        invariant budget > 0 ==> left > 0
        decreases ht0.Length - rehashidx
      {
        rehashidx := rehashidx + 1;
        passed := passed + 1;
        left := left - 1;
        if left == 0 {
          return true, 0, passed;
        }
      }
      spent := false;
    }

    /** Walks one chain. */
    static method Search<V>(chain: Chain<V>, key: Key) returns (found: Option<V>)
      ensures found == FindIn(chain, key)
    {
      var he := chain;
      while he != []
        invariant FindIn(he, key) == FindIn(chain, key)
        decreases |he|
      {
        if he[0].key == key {
          return Some(he[0].value);
        }
        he := he[1..];
      }
      return None;
    }

    /** The first power of two that is at least `size`, starting from the initial size. */
    static method NextPower(size: nat) returns (i: nat)
      ensures IsPow2(i) && INITIAL_SIZE <= i && size <= i
      ensures if size <= INITIAL_SIZE then i == INITIAL_SIZE else i < 2 * size
    {
      i := INITIAL_SIZE;
      assert Pow2(2) == 4;
      while i < size
        invariant IsPow2(i) && INITIAL_SIZE <= i
        invariant if size <= INITIAL_SIZE then i == INITIAL_SIZE else i < 2 * size
        decreases size - i
      {
        ghost var k: nat :| i == Pow2(k);
        assert 2 * i == Pow2(k + 1);
        i := i * 2;
      }
    }

    /** Allocates the table to rehash into, or the first table. */
    method Expand(size: nat) returns (ok: bool)
      requires Valid()
      modifies this
      ensures Valid() && contents == old(contents) && canResize == old(canResize)
      ensures ok <==> !old(IsRehashing()) && old(used0) <= size
      ensures !ok ==> unchanged(this)
      ensures ok && old(ht0.Length) == 0 ==> fresh(ht0) && ht1 == old(ht1) && !IsRehashing()
      ensures ok && old(ht0.Length) > 0 ==> ht0 == old(ht0) && fresh(ht1) && rehashidx == 0
      ensures ok ==>
        var length := if IsRehashing() then ht1.Length else ht0.Length;
        && IsPow2(length) && length >= size && used0 == old(used0)
        && if size <= INITIAL_SIZE then length == INITIAL_SIZE else length < 2 * size
    {
      if IsRehashing() || used0 > size {
        return false;
      }
      var realSize := NextPower(size);
      var table := new Chain<V>[realSize](_ => []);
      FreshTable(table[..], hash);
      if ht0.Length == 0 {
        ht0 := table;
      } else {
        ht1 := table;
        rehashidx := 0;
      }
      return true;
    }

    /** Rehashing starts exactly when a node per bucket is reached and resizing is allowed, or the ratio is
        over the forced limit; the new table has the first power of two that is twice the nodes. */
    method ExpandIfNeeded() returns (ok: bool)
      requires Valid()
      modifies this
      ensures Valid() && contents == old(contents) && canResize == old(canResize) && ok && ht0.Length > 0
      ensures (ht0 == old(ht0) || fresh(ht0)) && (ht1 == old(ht1) || fresh(ht1))
      ensures old(IsRehashing()) ==> unchanged(this)
      ensures old(ht0.Length) == 0 ==> ht0.Length == INITIAL_SIZE && !IsRehashing()
      ensures old(ht0.Length) > 0 && !old(IsRehashing()) ==>
        (IsRehashing() <==> used0 >= ht0.Length && (canResize || used0 / ht0.Length > FORCE_RESIZE_RATIO))
      ensures old(ht0.Length) > 0 && !IsRehashing() ==> unchanged(this)
      ensures IsRehashing() && !old(IsRehashing()) ==>
        && rehashidx == 0 && ht0 == old(ht0) && IsPow2(ht1.Length)
        && ht1.Length >= 2 * used0
        && if 2 * used0 <= INITIAL_SIZE then ht1.Length == INITIAL_SIZE else ht1.Length < 4 * used0
    {
      if IsRehashing() {
        return true;
      }
      if ht0.Length == 0 {
        ok := Expand(INITIAL_SIZE);
        return;
      }
      if used0 >= ht0.Length && (canResize || used0 / ht0.Length > FORCE_RESIZE_RATIO) {
        ok := Expand(used0 * 2);
        return;
      }
      return true;
    }

    predicate NeedsResize()
      reads this
    {
      var size, used := ht0.Length + ht1.Length, used0 + used1;
      Sparse(used, size)
    }

    /** Shrinks to the smallest table that holds all nodes. When the fill is below the threshold the
        new table is really smaller. */
    method Resize() returns (ok: bool)
      requires Valid()
      modifies this
      ensures Valid() && contents == old(contents)
      ensures ok <==> old(canResize) && !old(IsRehashing())
      ensures (ht0 == old(ht0) || fresh(ht0)) && (ht1 == old(ht1) || fresh(ht1))
      ensures ok ==>
        var minimal, length := Larger(old(used0), INITIAL_SIZE), if IsRehashing() then ht1.Length else ht0.Length;
        && (IsRehashing() <==> old(ht0.Length) > 0) && used0 == old(used0)
        && IsPow2(length) && minimal <= length < 2 * minimal
      ensures !ok ==> unchanged(this)
      ensures ok && old(ht0.Length) > 0 && old(NeedsResize()) ==> ht1.Length < ht0.Length
    {
      if !canResize || IsRehashing() {
        return false;
      }
      var minimal := used0;
      if minimal < INITIAL_SIZE {
        minimal := INITIAL_SIZE;
      }
      if NeedsResize() {
        SparseTable(used0, ht0.Length);
      }
      ok := Expand(minimal);
    }

    /** The bucket for a new key, -1 if the key is there already; while rehashing the bucket is
        always one of the new table. */
    method KeyIndex(key: Key) returns (idx: int, existing: Option<V>)
      requires Valid()
      modifies this
      ensures Valid() && contents == old(contents)
      ensures (ht0 == old(ht0) || fresh(ht0)) && (ht1 == old(ht1) || fresh(ht1))
      ensures old(IsRehashing()) ==> unchanged(this)
      ensures idx == -1 <==> key in contents
      ensures existing == if key in contents then Some(contents[key]) else None
      ensures idx != -1 ==>
        var length := if IsRehashing() then ht1.Length else ht0.Length;
        0 <= idx < length && idx == Index(hash(key), length)
    {
      var ok := ExpandIfNeeded();
      // The listing gives up here when expanding fails; from its caller it never does.
      assert ok;
      assert Both(ht0[..], ht1[..], hash, key) == if key in contents then Some(contents[key]) else None;
      IndexInRange(hash(key), ht0.Length);
      idx := Index(hash(key), ht0.Length);
      existing := Search(ht0[idx], key);
      if existing.Some? {
        return -1, existing;
      }
      if IsRehashing() {
        IndexInRange(hash(key), ht1.Length);
        idx := Index(hash(key), ht1.Length);
        existing := Search(ht1[idx], key);
        if existing.Some? {
          return -1, existing;
        }
      }
    }

    method Find(key: Key) returns (found: Option<V>)
      requires Valid()
      ensures found == if key in contents then Some(contents[key]) else None
    {
      assert Both(ht0[..], ht1[..], hash, key) == if key in contents then Some(contents[key]) else None;
      if ht0.Length == 0 {
        return None;
      }
      IndexInRange(hash(key), ht0.Length);
      found := Search(ht0[Index(hash(key), ht0.Length)], key);
      if found.None? && IsRehashing() {
        IndexInRange(hash(key), ht1.Length);
        found := Search(ht1[Index(hash(key), ht1.Length)], key);
      }
    }

    /** Adds a new key; an existing one is left alone. During rehashing the old table gains nothing. */
    method Add(key: Key, value: V) returns (added: bool)
      requires Valid()
      modifies this, ht0, ht1
      ensures Valid()
      ensures added <==> key !in old(contents)
      ensures contents == if added then old(contents)[key := value] else old(contents)
      ensures (ht0 == old(ht0) || fresh(ht0)) && (ht1 == old(ht1) || fresh(ht1))
      ensures old(IsRehashing()) ==> ht0 == old(ht0) && ht0[..] == old(ht0[..]) && used0 == old(used0)
    {
      var idx, existing := KeyIndex(key);
      if idx == -1 {
        return false;
      }
      Link(idx, Node(key, value));
      return true;
    }

    /** Links a new node in at the head of its bucket, in the new table while rehashing. */
    method Link(idx: nat, node: Node<V>)
      requires Valid() && node.key !in contents && ht0.Length > 0
      requires idx == Index(hash(node.key), if IsRehashing() then ht1.Length else ht0.Length)
      modifies this`used0, this`used1, this`contents, if IsRehashing() then ht1 else ht0
      ensures Valid() && contents == old(contents)[node.key := node.value]
      ensures IsRehashing() ==> used0 == old(used0)
    {
      ghost var t0, t1 := ht0[..], ht1[..];
      AddNode(t0, t1, used0, used1, rehashidx, hash, contents, node);
      if IsRehashing() {
        ht1[idx] := [node] + ht1[idx];
        assert ht1[..] == t1[idx := [node] + t1[idx]];
        used1 := used1 + 1;
      } else {
        ht0[idx] := [node] + ht0[idx];
        assert ht0[..] == t0[idx := [node] + t0[idx]];
        used0 := used0 + 1;
      }
      contents := contents[node.key := node.value];
    }

    /** Removes a key from whichever table holds it. */
    method Delete(key: Key) returns (removed: bool)
      requires Valid()
      modifies this`used0, this`used1, this`contents, ht0, ht1
      ensures Valid()
      ensures removed <==> key in old(contents)
      ensures contents == old(contents) - {key}
    {
      ghost var t0, t1 := ht0[..], ht1[..];
      assert Both(t0, t1, hash, key) == if key in contents then Some(contents[key]) else None;
      if ht0.Length == 0 {
        assert contents - {key} == contents;
        return false;
      }
      IndexInRange(hash(key), ht0.Length);
      var idx := Index(hash(key), ht0.Length);
      var found := Search(ht0[idx], key);
      if found.Some? {
        DeleteFromOld(t0, t1, used0, used1, rehashidx, hash, contents, key);
        ht0[idx] := Without(ht0[idx], key);
        assert ht0[..] == t0[idx := Without(t0[idx], key)];
        used0 := used0 - 1;
        contents := contents - {key};
        return true;
      }
      if !IsRehashing() {
        assert contents - {key} == contents;
        return false;
      }
      removed := DeleteNewer(key);
    }

    /** The second table's turn. */
    method DeleteNewer(key: Key) returns (removed: bool)
      requires Valid() && IsRehashing() && Lookup(ht0[..], hash, key).None?
      modifies this`used1, this`contents, ht1
      ensures Valid()
      ensures removed <==> key in old(contents)
      ensures contents == old(contents) - {key}
    {
      ghost var t0, t1 := ht0[..], ht1[..];
      assert Both(t0, t1, hash, key) == if key in contents then Some(contents[key]) else None;
      IndexInRange(hash(key), ht1.Length);
      var idx := Index(hash(key), ht1.Length);
      var found := Search(ht1[idx], key);
      if found.None? {
        assert contents - {key} == contents;
        return false;
      }
      DeleteFromNew(t0, t1, used0, used1, rehashidx, hash, contents, key);
      ht1[idx] := Without(ht1[idx], key);
      assert ht1[..] == t1[idx := Without(t1[idx], key)];
      used1 := used1 - 1;
      contents := contents - {key};
      return true;
    }

    /** Repeated calls finish: with at least one step a call, no more calls than there were buckets
        left to look at. */
    method RehashToEnd(n: nat) returns (calls: nat)
      requires Valid() && n >= 1
      modifies this, ht0, ht1
      ensures Valid() && !IsRehashing() && contents == old(contents)
      ensures old(IsRehashing()) ==> 1 <= calls <= old(ht0.Length) - old(rehashidx)
      ensures !old(IsRehashing()) ==> calls == 0
    {
      calls := 0;
      while IsRehashing()
        invariant Valid() && contents == old(contents)
        invariant IsRehashing() ==> ht0 == old(ht0) && ht1 == old(ht1) && calls <= rehashidx - old(rehashidx)
        invariant !IsRehashing() && old(IsRehashing()) ==> 1 <= calls <= old(ht0.Length) - old(rehashidx)
        invariant !old(IsRehashing()) ==> !IsRehashing() && calls == 0
        decreases if IsRehashing() then ht0.Length - rehashidx else 0
      {
        var more, visits, moved := Rehash(n);
        calls := calls + 1;
      }
    }
  }

  lemma EmptyTable<V>(t: Buckets<V>, hash: Key -> nat)
    requires Placed(t, hash) && Size(t) == 0
    ensures forall k :: Lookup(t, hash, k).None?
  {
    EmptySize(t);
    forall k ensures Lookup(t, hash, k).None? {
      if t != [] { IndexInRange(hash(k), |t|); }
    }
  }

  lemma NonEmptyAhead<V>(t: Buckets<V>, r: nat)
    requires Size(t) != 0 && r <= |t| && forall b :: 0 <= b < r ==> t[b] == []
    ensures exists b :: r <= b < |t| && t[b] != []
  {
    EmptySize(t);
  }

  lemma FreshTable<V>(t: Buckets<V>, hash: Key -> nat)
    requires IsPow2(|t|) && forall b :: 0 <= b < |t| ==> t[b] == []
    ensures Placed(t, hash) && Size(t) == 0
    ensures forall k :: Lookup(t, hash, k).None?
  {
    EmptySize(t);
    EmptyTable(t, hash);
  }

  /** htNeedsResize. */
  predicate Sparse(used: nat, size: nat) {
    size > INITIAL_SIZE && used * 100 / size < MIN_FILL
  }

  /** The fill test without the division: fewer than a tenth of the buckets could hold a node each. */
  lemma SparseIs(used: nat, size: nat)
    ensures Sparse(used, size) <==> size > 4 && 10 * used < size
  {
    if size > 4 {
      if used * 100 / size < MIN_FILL { FillBelow(used * 100, size); } else { FillAbove(used * 100, size); }
    }
  }

  lemma FillAbove(a: nat, size: nat)
    requires size > 0 && a / size >= MIN_FILL
    ensures a >= MIN_FILL * size
  {
    var q := a / size;
    assert a == size * q + a % size;
    assert size * q >= size * MIN_FILL;
  }

  function Larger(a: nat, b: nat): nat {
    if a < b then b else a
  }

  lemma SparseTable(used: nat, size: nat)
    requires Sparse(used, size) && IsPow2(size)
    ensures 2 * used < size && size >= 2 * INITIAL_SIZE
  {
    FillBelow(used * 100, size);
    var k: nat :| size == Pow2(k);
    assert Pow2(0) == 1 && Pow2(1) == 2 && Pow2(2) == 4;
    assert k > 2;
    Pow2AtLeast8(k);
  }

  lemma FillBelow(a: nat, size: nat)
    requires size > 0 && a / size < MIN_FILL
    ensures a < MIN_FILL * size
  {
    var q := a / size;
    assert a == size * q + a % size;
    assert size * q <= size * (MIN_FILL - 1);
  }

  lemma {:induction false} Pow2AtLeast8(k: nat)
    requires k > 2
    ensures Pow2(k) >= 8
  {
    if k == 3 {
      assert Pow2(2) == 4;
    } else {
      Pow2AtLeast8(k - 1);
    }
  }

  /** Adding a key that is in neither table. */
  lemma AddNode<V>(t0: Buckets<V>, t1: Buckets<V>, used0: nat, used1: nat, rehashidx: int, hash: Key -> nat,
                   contents: map<Key, V>, node: Node<V>)
    requires Consistent(t0, t1, used0, used1, rehashidx, hash) && Represents(t0, t1, hash, contents)
    requires t0 != [] && node.key !in contents
    ensures rehashidx == -1 ==>
      var b := Index(hash(node.key), |t0|);
      && b < |t0|
      && Consistent(t0[b := [node] + t0[b]], t1, used0 + 1, used1, rehashidx, hash)
      && Represents(t0[b := [node] + t0[b]], t1, hash, contents[node.key := node.value])
    ensures rehashidx >= 0 ==>
      var b := Index(hash(node.key), |t1|);
      && b < |t1|
      && Consistent(t0, t1[b := [node] + t1[b]], used0, used1 + 1, rehashidx, hash)
      && Represents(t0, t1[b := [node] + t1[b]], hash, contents[node.key := node.value])
  {
    assert Both(t0, t1, hash, node.key) == None;
    if rehashidx == -1 {
      PushNode(t0, hash, node, node.key);
      var b := Index(hash(node.key), |t0|);
      SizeUpdate(t0, b, [node] + t0[b]);
      forall k { PushNode(t0, hash, node, k); }
    } else {
      PushNode(t1, hash, node, node.key);
      var b := Index(hash(node.key), |t1|);
      SizeUpdate(t1, b, [node] + t1[b]);
      forall k { PushNode(t1, hash, node, k); }
    }
  }

  lemma DeleteFromOld<V>(t0: Buckets<V>, t1: Buckets<V>, used0: nat, used1: nat, rehashidx: int, hash: Key -> nat,
                         contents: map<Key, V>, key: Key)
    requires Consistent(t0, t1, used0, used1, rehashidx, hash) && Represents(t0, t1, hash, contents)
    requires t0 != [] && Lookup(t0, hash, key).Some?
    ensures
      var b := Index(hash(key), |t0|);
      && b < |t0| && used0 > 0
      && Consistent(t0[b := Without(t0[b], key)], t1, used0 - 1, used1, rehashidx, hash)
      && Represents(t0[b := Without(t0[b], key)], t1, hash, contents - {key})
  {
    var b := Index(hash(key), |t0|);
    Removed(t0, hash, key);
    var t := t0[b := Without(t0[b], key)];
    assert t1 != [] ==> Lookup(t1, hash, key).None?;
    RepresentsLess(t0, t1, t, t1, hash, contents, key);
  }

  lemma Removed<V>(t: Buckets<V>, hash: Key -> nat, key: Key)
    requires Placed(t, hash) && t != [] && Lookup(t, hash, key).Some?
    ensures
      var b := Index(hash(key), |t|);
      && b < |t| && Size(t) > 0
      && var t' := t[b := Without(t[b], key)];
         && Placed(t', hash) && Size(t') == Size(t) - 1 && (forall c :: 0 <= c < |t| && t[c] == [] ==> t'[c] == [])
         && forall k :: Lookup(t', hash, k) == if k == key then None else Lookup(t, hash, k)
  {
    var b := Index(hash(key), |t|);
    RemoveNode(t, hash, key, key);
    WithoutFacts(t[b], key, key);
    SizeUpdate(t, b, Without(t[b], key));
    forall k ensures Lookup(t[b := Without(t[b], key)], hash, k) == if k == key then None else Lookup(t, hash, k) {
      RemoveNode(t, hash, key, k);
    }
  }

  /** Tables that agree but for one key, which is in neither, represent the map without it. */
  lemma RepresentsLess<V>(t0: Buckets<V>, t1: Buckets<V>, t0': Buckets<V>, t1': Buckets<V>, hash: Key -> nat,
                          contents: map<Key, V>, key: Key)
    requires Placed(t0, hash) && Placed(t1, hash) && Placed(t0', hash) && Placed(t1', hash)
    requires Represents(t0, t1, hash, contents) && Both(t0', t1', hash, key).None?
    requires forall k :: k != key ==>
      Lookup(t0', hash, k) == Lookup(t0, hash, k) && Lookup(t1', hash, k) == Lookup(t1, hash, k)
    ensures Represents(t0', t1', hash, contents - {key})
  {
    forall k ensures Both(t0', t1', hash, k) == if k in contents - {key} then Some((contents - {key})[k]) else None {
      assert Both(t0, t1, hash, k) == if k in contents then Some(contents[k]) else None;
    }
  }

  lemma DeleteFromNew<V>(t0: Buckets<V>, t1: Buckets<V>, used0: nat, used1: nat, rehashidx: int, hash: Key -> nat,
                         contents: map<Key, V>, key: Key)
    requires Consistent(t0, t1, used0, used1, rehashidx, hash) && Represents(t0, t1, hash, contents)
    requires Lookup(t0, hash, key).None? && t1 != [] && Lookup(t1, hash, key).Some?
    ensures
      var b := Index(hash(key), |t1|);
      && b < |t1| && used1 > 0
      && Consistent(t0, t1[b := Without(t1[b], key)], used0, used1 - 1, rehashidx, hash)
      && Represents(t0, t1[b := Without(t1[b], key)], hash, contents - {key})
  {
    var b := Index(hash(key), |t1|);
    Removed(t1, hash, key);
    var t := t1[b := Without(t1[b], key)];
    RepresentsLess(t0, t1, t0, t, hash, contents, key);
  }

  datatype Op<V> =
    | Get(key: Key)
    | Put(key: Key, value: V)
    | Remove(key: Key)
    | Step(n: int)
    | Shrink
    | AllowResize(on: bool)

  /** The dictionary a caller thinks of: rehashing and resizing do nothing. */
  function Effect<V>(m: map<Key, V>, op: Op<V>): map<Key, V> {
    match op
    case Put(k, v) => if k in m then m else m[k := v]
    case Remove(k) => m - {k}
    case _ => m
  }

  function Answer<V>(m: map<Key, V>, op: Op<V>): Option<V> {
    if op.Get? && op.key in m then Some(m[op.key]) else None
  }

  function Answers<V>(m: map<Key, V>, ops: seq<Op<V>>): seq<Option<V>>
    decreases ops
  {
    if ops == [] then [] else [Answer(m, ops[0])] + Answers(Effect(m, ops[0]), ops[1..])
  }

  method Perform<V>(d: Dictionary<V>, op: Op<V>) returns (answer: Option<V>)
    requires d.Valid()
    modifies d, d.ht0, d.ht1
    ensures d.Valid()
    ensures d.contents == Effect(old(d.contents), op) && answer == Answer(old(d.contents), op)
    ensures d.ht0 in {old(d.ht0), old(d.ht1)} || fresh(d.ht0)
    ensures d.ht1 == old(d.ht1) || fresh(d.ht1)
  {
    answer := None;
    match op {
      case Get(k) => answer := d.Find(k);
      case Put(k, v) => var _ := d.Add(k, v);
      case Remove(k) => var _ := d.Delete(k);
      case Step(n) => var _, _, _ := d.Rehash(n);
      case Shrink => var _ := d.Resize();
      case AllowResize(on) => d.canResize := on;
    }
  }

  lemma AnswersNext<V>(m: map<Key, V>, ops: seq<Op<V>>, i: nat, before: seq<Option<V>>)
    requires i < |ops|
    ensures before + Answers(m, ops[i..]) ==
      (before + [Answer(m, ops[i])]) + Answers(Effect(m, ops[i]), ops[i + 1..])
  {
    assert ops[i..][1..] == ops[i + 1..];
  }

  /** Any run of lookups, inserts, deletes, shrinks and rehashing steps answers as a plain map would,
      for every hash function. */
  method Replay<V>(hash: Key -> nat, ops: seq<Op<V>>) returns (answers: seq<Option<V>>)
    ensures answers == Answers(map[], ops)
  {
    var d := new Dictionary<V>(hash);
    answers := [];
    var i := 0;
    while i < |ops|
      invariant i <= |ops| && d.Valid() && fresh(d) && fresh(d.ht0) && fresh(d.ht1)
      invariant answers + Answers(d.contents, ops[i..]) == Answers(map[], ops)
    {
      AnswersNext(d.contents, ops, i, answers);
      var answer := Perform(d, ops[i]);
      answers := answers + [answer];
      i := i + 1;
    }
  }
}
