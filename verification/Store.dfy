/** The read path put together: a scan through the merging iterator and the user-facing iterator
    lists what point reads find, and compaction changes neither. */
module Store {
  import opened Coding
  import opened Keys
  import opened Lsm
  import DbIter
  import opened Compaction

  ghost predicate Ascending(pairs: seq<(Key, Bytes)>) {
    forall p, q :: 0 <= p < q < |pairs| ==> Less(pairs[p].0, pairs[q].0)
  }

  /** Scanning a store lists, in ascending key order and each key once, exactly what point reads
      at the same snapshot return. */
  method ScanStore(runs: seq<seq<Entry>>, snapshot: nat) returns (pairs: seq<(Key, Bytes)>)
    requires Merging.Mergeable(runs) && NewestFirst(runs)
    ensures Ascending(pairs)
    ensures forall k, v :: (k, v) in pairs <==> ReadLevels(runs, k, snapshot) == Some(v)
  {
    var merged := Merging.Merge(runs);
    var it := new DbIter.DbIterator(merged, snapshot);
    pairs := DbIter.Scan(it);
    ViewIsAscendingReads(merged, snapshot);
    forall k, v ensures (k, v) in pairs <==> ReadLevels(runs, k, snapshot) == Some(v) {
      MergedRunReadsAlike(runs, merged, k, snapshot);
    }
  }

  lemma {:induction false} AscendingIsUnique(a: seq<(Key, Bytes)>, b: seq<(Key, Bytes)>)
    requires Ascending(a) && Ascending(b)
    requires forall p :: p in a <==> p in b
    ensures a == b
  {
    LessIsStrictTotalOrder();
    assert b != [] ==> b[0] in b;
    if a != [] {
      assert a[0] in b && b != [] && b[0] in a;
      assert a[0] == b[0];
      assert a == [a[0]] + a[1..] && b == [b[0]] + b[1..];
      forall p ensures p in a[1..] <==> p in b[1..] {
        HeadNotInTail(a, p);
        HeadNotInTail(b, p);
      }
      AscendingIsUnique(a[1..], b[1..]);
    }
  }

  lemma HeadNotInTail(a: seq<(Key, Bytes)>, p: (Key, Bytes))
    requires Ascending(a) && a != []
    ensures p in a[1..] <==> p in a && p != a[0]
  {
    LessIsStrictTotalOrder();
    if p in a[1..] {
      var i :| 0 <= i < |a[1..]| && a[1..][i] == p;
      assert a[i + 1] == p;
      assert Less(a[0].0, a[i + 1].0);
    }
  }

  /** A scan at a protected snapshot is the same list before and after a compaction. */
  method ScanAroundCompaction(runs: seq<seq<Entry>>, deeper: seq<seq<Entry>>, smallestSnapshot: nat,
                              base: Key -> bool, snapshot: nat)
    returns (before: seq<(Key, Bytes)>, after: seq<(Key, Bytes)>)
    requires Merging.Mergeable(runs + deeper) && NewestFirst(runs + deeper)
    requires Sound(base, deeper) && smallestSnapshot < MAX_SEQUENCE && smallestSnapshot <= snapshot
    ensures before == after
  {
    assert Merging.Mergeable(runs) && NewestFirst(runs) by {
      assert forall i :: 0 <= i < |runs| ==> (runs + deeper)[i] == runs[i];
    }
    before := ScanStore(runs + deeper, snapshot);
    var output := Compact(runs, smallestSnapshot, base);
    CompactedIsMergeable(runs, output, deeper);
    after := ScanStore([output] + deeper, snapshot);
    assert [] + [output] + deeper == [output] + deeper && [] + runs + deeper == runs + deeper;
    forall k, v ensures (k, v) in before <==> (k, v) in after {
      assert ReadLevels([] + [output] + deeper, k, snapshot) == ReadLevels([] + runs + deeper, k, snapshot);
    }
    forall p ensures p in before <==> p in after {
      assert p == (p.0, p.1);
    }
    AscendingIsUnique(before, after);
  }

  lemma CompactedIsMergeable(runs: seq<seq<Entry>>, output: seq<Entry>, deeper: seq<seq<Entry>>)
    requires Merging.Mergeable(runs + deeper) && NewestFirst(runs + deeper)
    requires Sorted(output) && forall e :: e in output ==> e in Merging.All(runs)
    ensures Merging.Mergeable([output] + deeper) && NewestFirst([output] + deeper)
  {
    var all, levels := runs + deeper, [output] + deeper;
    forall i: int, j: int, a: Entry, b: Entry |
      0 <= i < j < |levels| && a in levels[i] && b in levels[j] && a.key == b.key
      ensures a.sequence > b.sequence
    {
      assert b in all[|runs| + j - 1];
      if i == 0 {
        AllMembers(runs, a);
        var r :| 0 <= r < |runs| && a in runs[r];
        assert a in all[r];
      } else {
        assert a in all[|runs| + i - 1];
      }
    }
    forall i | 0 <= i < |levels| ensures Sorted(levels[i]) {
      assert i > 0 ==> levels[i] == all[|runs| + i - 1];
    }
    forall i, j, p, q | 0 <= i < j < |levels| && 0 <= p < |levels[i]| && 0 <= q < |levels[j]|
      ensures levels[i][p].key != levels[j][q].key || levels[i][p].sequence != levels[j][q].sequence
    {
      assert levels[i][p] in levels[i] && levels[j][q] in levels[j];
    }
  }
}
