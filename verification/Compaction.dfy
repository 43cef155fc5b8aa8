/** Major compaction: the merge loop with its rule for dropping entries, and the reads it keeps. */
module Compaction {
  import opened Coding
  import opened Keys
  import opened Lsm
  import Merging

  /** A read goes through the levels from newest to oldest and stops at the first that has a
      version of the key at the snapshot, deleted or not. */
  function NewestIn(levels: seq<seq<Entry>>, k: Key, snapshot: nat): Option<Entry> {
    if levels == [] then None
    else
      var r := Newest(levels[0], k, snapshot);
      if r.Some? then r else NewestIn(levels[1..], k, snapshot)
  }

  function ReadLevels(levels: seq<seq<Entry>>, k: Key, snapshot: nat): Option<Bytes> {
    match NewestIn(levels, k, snapshot)
    case Some(e) => if e.kind == Value then Some(e.value) else None
    case None => None
  }

  /** IsBaseLevelForKey may err on the side of caution: when it says yes no deeper level has the key. */
  ghost predicate Sound(base: Key -> bool, deeper: seq<seq<Entry>>) {
    forall l, e :: l in deeper && e in l ==> !base(e.key)
  }

  /** An earlier version of the same key is already at or below the smallest snapshot. */
  ghost predicate Shadowed(es: seq<Entry>, i: nat, smallestSnapshot: nat) {
    i < |es| && exists j :: 0 <= j < i && es[j].key == es[i].key && es[j].sequence <= smallestSnapshot
  }

  predicate ObsoleteDeletion(e: Entry, smallestSnapshot: nat, base: Key -> bool) {
    e.kind == Deletion && e.sequence <= smallestSnapshot && base(e.key)
  }

  /** What the drop rule leaves of the first `n` entries. */
  ghost function Kept(es: seq<Entry>, n: nat, smallestSnapshot: nat, base: Key -> bool): seq<Entry>
    requires n <= |es|
  {
    if n == 0 then []
    else
      var init := Kept(es, n - 1, smallestSnapshot, base);
      if Shadowed(es, n - 1, smallestSnapshot) || ObsoleteDeletion(es[n - 1], smallestSnapshot, base)
      then init else init + [es[n - 1]]
  }

  lemma {:induction false} KeptMembers(es: seq<Entry>, n: nat, smallestSnapshot: nat, base: Key -> bool, e: Entry)
    requires n <= |es|
    ensures e in Kept(es, n, smallestSnapshot, base) <==>
      !ObsoleteDeletion(e, smallestSnapshot, base)
      && exists i: nat :: i < n && es[i] == e && !Shadowed(es, i, smallestSnapshot)
  {
    if n > 0 {
      KeptMembers(es, n - 1, smallestSnapshot, base, e);
    }
  }

  /** Which entries are left, said without the loop: those that have no newer version at or below the smallest
      snapshot and are not deletions at or below it of a key that no deeper level has. */
  lemma KeptExactly(es: seq<Entry>, smallestSnapshot: nat, base: Key -> bool, e: Entry)
    requires Sorted(es)
    ensures e in Kept(es, |es|, smallestSnapshot, base) <==>
      && e in es
      && !(exists f :: f in es && f.key == e.key && e.sequence < f.sequence <= smallestSnapshot)
      && !(e.kind == Deletion && e.sequence <= smallestSnapshot && base(e.key))
  {
    KeptMembers(es, |es|, smallestSnapshot, base, e);
    if e in es {
      var i: nat :| i < |es| && es[i] == e;
      NewerIsEarlier(es, i, smallestSnapshot);
      forall j: nat | j < |es| && es[j] == e ensures j == i {
        DistinctEntries(es, i, j);
      }
    }
  }

  lemma DistinctEntries(es: seq<Entry>, i: nat, j: nat)
    requires Sorted(es) && i < |es| && j < |es| && es[i] == es[j]
    ensures i == j
  {
    LessIrreflexive(es[i].key);
  }

  lemma NewerIsEarlier(es: seq<Entry>, i: nat, bound: nat)
    requires Sorted(es) && i < |es|
    ensures Shadowed(es, i, bound) <==>
      exists f :: f in es && f.key == es[i].key && es[i].sequence < f.sequence <= bound
  {
    LessIrreflexive(es[i].key);
    if j :| 0 <= j < i && es[j].key == es[i].key && es[j].sequence <= bound {
      assert Before(es[j], es[i]) && es[j] in es;
    }
    if f :| f in es && f.key == es[i].key && es[i].sequence < f.sequence <= bound {
      var j :| 0 <= j < |es| && es[j] == f;
      assert j < i && es[j].key == es[i].key;
    }
  }

  /** The merge loop over the sorted input. */
  method DropObsolete(input: seq<Entry>, smallestSnapshot: nat, base: Key -> bool) returns (output: seq<Entry>)
    requires Sorted(input)
    requires smallestSnapshot < MAX_SEQUENCE
    ensures output == Kept(input, |input|, smallestSnapshot, base)
  {
    LessIsStrictTotalOrder();
    output := [];
    var hasCurrent, currentKey := false, [];
    var lastSequenceForKey := MAX_SEQUENCE;
    var i := 0;
    while i < |input|
      invariant i <= |input|
      invariant output == Kept(input, i, smallestSnapshot, base)
      invariant hasCurrent <==> i > 0
      invariant hasCurrent ==> currentKey == input[i - 1].key && lastSequenceForKey == input[i - 1].sequence
    {
      var e := input[i];
      if !hasCurrent || e.key != currentKey {
        currentKey, hasCurrent := e.key, true;
        lastSequenceForKey := MAX_SEQUENCE;
        NewKeyIsNotShadowed(input, i, smallestSnapshot);
      } else {
        ShadowedByPrevious(input, i, smallestSnapshot);
      }
      var drop := false;
      if lastSequenceForKey <= smallestSnapshot {
        drop := true;
      } else if e.kind == Deletion && e.sequence <= smallestSnapshot && base(e.key) {
        drop := true;
      }
      lastSequenceForKey := e.sequence;
      if !drop {
        output := output + [e];
      }
      i := i + 1;
    }
  }

  lemma NewKeyIsNotShadowed(es: seq<Entry>, i: nat, smallestSnapshot: nat)
    requires Sorted(es) && i < |es|
    requires i > 0 ==> es[i - 1].key != es[i].key
    ensures !Shadowed(es, i, smallestSnapshot)
  {
    LessIsStrictTotalOrder();
    forall j | 0 <= j < i ensures es[j].key != es[i].key {
      assert j < i - 1 ==> Before(es[j], es[i - 1]);
      assert Before(es[i - 1], es[i]);
    }
  }

  lemma ShadowedByPrevious(es: seq<Entry>, i: nat, smallestSnapshot: nat)
    requires Sorted(es) && 0 < i < |es| && es[i - 1].key == es[i].key
    ensures Shadowed(es, i, smallestSnapshot) <==> es[i - 1].sequence <= smallestSnapshot
  {
    LessIsStrictTotalOrder();
    if j :| 0 <= j < i && es[j].key == es[i].key && es[j].sequence <= smallestSnapshot {
      assert j < i - 1 ==> Before(es[j], es[i - 1]);
    }
  }

  lemma NewestDecides(es: seq<Entry>, k: Key, snapshot: nat) returns (i: nat)
    requires Sorted(es) && Newest(es, k, snapshot).Some?
    ensures Decides(es, snapshot, i) && es[i] == Newest(es, k, snapshot).value
  {
    LessIrreflexive(k);
    i :| i < |es| && es[i] == Newest(es, k, snapshot).value;
    forall j | 0 <= j < i && es[j].key == k ensures es[j].sequence > snapshot {
      assert Before(es[j], es[i]) && es[j] in es;
    }
  }

  /** Removing other entries does not change what decides a key. */
  lemma NewestInSubset(es: seq<Entry>, sub: seq<Entry>, k: Key, snapshot: nat)
    requires Sorted(es) && (forall e :: e in sub ==> e in es)
    requires Newest(es, k, snapshot).Some? && Newest(es, k, snapshot).value in sub
    ensures Newest(sub, k, snapshot) == Newest(es, k, snapshot)
  {
    SameVersion(es, Newest(sub, k, snapshot).value, Newest(es, k, snapshot).value);
  }

  /** Once the deciding entry is at or below the smallest snapshot and dropped, all older versions
      of the key are dropped with it. */
  lemma NothingSurvives(es: seq<Entry>, smallestSnapshot: nat, base: Key -> bool, snapshot: nat, i: nat)
    requires Sorted(es) && smallestSnapshot <= snapshot
    requires Decides(es, snapshot, i) && ObsoleteDeletion(es[i], smallestSnapshot, base)
    ensures Newest(Kept(es, |es|, smallestSnapshot, base), es[i].key, snapshot) == None
  {
    var out := Kept(es, |es|, smallestSnapshot, base);
    forall e | e in out ensures !Visible(e, es[i].key, snapshot) {
      KeptMembers(es, |es|, smallestSnapshot, base, e);
      var j: nat :| j < |es| && es[j] == e && !Shadowed(es, j, smallestSnapshot);
    }
  }

  /** At a protected snapshot the compacted level decides each key as before, or the deciding entry
      was an obsolete deletion and nothing of the key is left. */
  lemma KeptDecides(es: seq<Entry>, smallestSnapshot: nat, base: Key -> bool, k: Key, snapshot: nat)
    requires Sorted(es) && smallestSnapshot <= snapshot
    ensures
      var before, after := Newest(es, k, snapshot), Newest(Kept(es, |es|, smallestSnapshot, base), k, snapshot);
      if before.Some? && ObsoleteDeletion(before.value, smallestSnapshot, base) then after == None else after == before
  {
    var out := Kept(es, |es|, smallestSnapshot, base);
    forall e | e in out ensures e in es {
      KeptMembers(es, |es|, smallestSnapshot, base, e);
    }
    if Newest(es, k, snapshot).Some? {
      var i := NewestDecides(es, k, snapshot);
      if ObsoleteDeletion(es[i], smallestSnapshot, base) {
        NothingSurvives(es, smallestSnapshot, base, snapshot, i);
      } else {
        KeptMembers(es, |es|, smallestSnapshot, base, es[i]);
        assert !Shadowed(es, i, smallestSnapshot);
        NewestInSubset(es, out, k, snapshot);
      }
    }
  }

  lemma {:induction false} NewestInPlus(a: seq<seq<Entry>>, b: seq<seq<Entry>>, k: Key, snapshot: nat)
    ensures NewestIn(a + b, k, snapshot)
      == if NewestIn(a, k, snapshot).Some? then NewestIn(a, k, snapshot) else NewestIn(b, k, snapshot)
  {
    if a == [] {
      assert a + b == b;
    } else {
      assert (a + b)[1..] == a[1..] + b;
      NewestInPlus(a[1..], b, k, snapshot);
    }
  }

  lemma {:induction false} NewestInMember(levels: seq<seq<Entry>>, k: Key, snapshot: nat)
    ensures
      var r := NewestIn(levels, k, snapshot);
      r.Some? ==> Visible(r.value, k, snapshot) && exists l :: l in levels && r.value in l
    ensures NewestIn(levels, k, snapshot).None? ==> forall l, e :: l in levels && e in l ==> !Visible(e, k, snapshot)
  {
    if levels != [] {
      NewestInMember(levels[1..], k, snapshot);
      assert forall l :: l in levels <==> l == levels[0] || l in levels[1..];
    }
  }

  /** The runs being compacted, newest first: for each key, every version in an earlier run is newer
      than every version in a later one. */
  ghost predicate NewestFirst(runs: seq<seq<Entry>>) {
    forall i, j, a, b :: 0 <= i < j < |runs| && a in runs[i] && b in runs[j] && a.key == b.key ==>
      a.sequence > b.sequence
  }

  lemma {:induction false} AllMembers(runs: seq<seq<Entry>>, e: Entry)
    ensures e in Merging.All(runs) <==> exists i :: 0 <= i < |runs| && e in runs[i]
  {
    if runs != [] {
      AllMembers(runs[1..], e);
      assert forall i :: 0 < i < |runs| ==> runs[i] == runs[1..][i - 1];
    }
  }

  lemma {:induction false} FirstRunIsNewest(runs: seq<seq<Entry>>, k: Key, snapshot: nat, e: Entry)
    requires NewestFirst(runs)
    requires e in Merging.All(runs) && Visible(e, k, snapshot)
    ensures NewestIn(runs, k, snapshot).Some? && e.sequence <= NewestIn(runs, k, snapshot).value.sequence
    ensures NewestIn(runs, k, snapshot).value in Merging.All(runs)
  {
    AllMembers(runs, e);
    var r := Newest(runs[0], k, snapshot);
    if r.Some? {
      assert r.value in runs[0];
      AllMembers(runs, r.value);
    } else {
      assert e in Merging.All(runs[1..]);
      assert forall i :: 0 < i < |runs| ==> runs[i] == runs[1..][i - 1];
      FirstRunIsNewest(runs[1..], k, snapshot, e);
    }
  }

  /** Searching the runs one by one finds what searching their merge finds. */
  lemma MergedRunReadsAlike(runs: seq<seq<Entry>>, merged: seq<Entry>, k: Key, snapshot: nat)
    requires NewestFirst(runs) && Sorted(merged) && multiset(merged) == Merging.All(runs)
    ensures NewestIn(runs, k, snapshot) == Newest(merged, k, snapshot)
  {
    var a, b := NewestIn(runs, k, snapshot), Newest(merged, k, snapshot);
    assert forall e :: e in merged <==> e in Merging.All(runs);
    if b.Some? {
      FirstRunIsNewest(runs, k, snapshot, b.value);
      NewestInMember(runs, k, snapshot);
      SameVersion(merged, a.value, b.value);
    } else if a.Some? {
      NewestInMember(runs, k, snapshot);
      AllMembers(runs, a.value);
      assert false;
    }
  }

  /** Compaction preserves reads: for every key and every snapshot that is not older than the
      smallest one in use, the store answers as before. */
  lemma CompactionPreservesReads(newer: seq<seq<Entry>>, runs: seq<seq<Entry>>, deeper: seq<seq<Entry>>,
                                 merged: seq<Entry>, smallestSnapshot: nat, base: Key -> bool, k: Key, snapshot: nat)
    requires NewestFirst(runs) && Sorted(merged) && multiset(merged) == Merging.All(runs)
    requires Sound(base, deeper) && smallestSnapshot <= snapshot
    ensures ReadLevels(newer + [Kept(merged, |merged|, smallestSnapshot, base)] + deeper, k, snapshot)
         == ReadLevels(newer + runs + deeper, k, snapshot)
  {
    var out := Kept(merged, |merged|, smallestSnapshot, base);
    MergedRunReadsAlike(runs, merged, k, snapshot);
    KeptDecides(merged, smallestSnapshot, base, k, snapshot);
    OneLevel(out, k, snapshot);
    if base(k) {
      NothingDeeper(base, deeper, k, snapshot);
    }
    SwapLevels(newer, runs, [out], deeper, k, snapshot);
  }

  lemma OneLevel(es: seq<Entry>, k: Key, snapshot: nat)
    ensures NewestIn([es], k, snapshot) == Newest(es, k, snapshot)
  {
    assert [es][1..] == [];
    assert NewestIn([], k, snapshot) == None;
  }

  lemma NothingDeeper(base: Key -> bool, deeper: seq<seq<Entry>>, k: Key, snapshot: nat)
    requires Sound(base, deeper) && base(k)
    ensures NewestIn(deeper, k, snapshot) == None
  {
    NewestInMember(deeper, k, snapshot);
  }

  /** Levels in the middle may be replaced by levels that find the same, or by levels that find
      nothing where the old ones found a deletion and nothing lies deeper. */
  lemma SwapLevels(newer: seq<seq<Entry>>, a: seq<seq<Entry>>, b: seq<seq<Entry>>, deeper: seq<seq<Entry>>,
                   k: Key, snapshot: nat)
    requires NewestIn(b, k, snapshot) == NewestIn(a, k, snapshot)
      || (&& NewestIn(a, k, snapshot).Some? && NewestIn(a, k, snapshot).value.kind == Deletion
          && NewestIn(b, k, snapshot) == None && NewestIn(deeper, k, snapshot) == None)
    ensures ReadLevels(newer + b + deeper, k, snapshot) == ReadLevels(newer + a + deeper, k, snapshot)
  {
    NewestInPlus(newer + a, deeper, k, snapshot);
    NewestInPlus(newer, a, k, snapshot);
    NewestInPlus(newer + b, deeper, k, snapshot);
    NewestInPlus(newer, b, k, snapshot);
  }

  /** The whole compaction of some runs: merge them and drop what is obsolete. */
  method Compact(runs: seq<seq<Entry>>, smallestSnapshot: nat, base: Key -> bool) returns (output: seq<Entry>)
    requires Merging.Mergeable(runs) && NewestFirst(runs)
    requires smallestSnapshot < MAX_SEQUENCE
    ensures Sorted(output) && (forall e :: e in output ==> e in Merging.All(runs))
    ensures forall newer, deeper, k, snapshot: nat :: Sound(base, deeper) && smallestSnapshot <= snapshot ==>
      ReadLevels(newer + [output] + deeper, k, snapshot) == ReadLevels(newer + runs + deeper, k, snapshot)
    ensures Thin(output, smallestSnapshot)
    ensures forall e :: e in output <==>
      && e in Merging.All(runs)
      && !(exists f :: f in Merging.All(runs) && f.key == e.key && e.sequence < f.sequence <= smallestSnapshot)
      && !(e.kind == Deletion && e.sequence <= smallestSnapshot && base(e.key))
  {
    var merged := Merging.Merge(runs);
    output := DropObsolete(merged, smallestSnapshot, base);
    KeptSorted(merged, |merged|, smallestSnapshot, base);
    assert forall e :: e in merged <==> e in Merging.All(runs);
    forall e ensures e in output <==>
      && e in Merging.All(runs)
      && !(exists f :: f in Merging.All(runs) && f.key == e.key && e.sequence < f.sequence <= smallestSnapshot)
      && !(e.kind == Deletion && e.sequence <= smallestSnapshot && base(e.key))
    {
      KeptExactly(merged, smallestSnapshot, base, e);
    }
    forall newer, deeper, k, snapshot: nat | Sound(base, deeper) && smallestSnapshot <= snapshot
      ensures ReadLevels(newer + [output] + deeper, k, snapshot) == ReadLevels(newer + runs + deeper, k, snapshot)
    {
      CompactionPreservesReads(newer, runs, deeper, merged, smallestSnapshot, base, k, snapshot);
    }
  }

  /** Only the last version of a key is at or below the bound. */
  ghost predicate Thin(es: seq<Entry>, bound: nat) {
    forall i, j :: 0 <= i < j < |es| && es[i].key == es[j].key ==> es[i].sequence > bound
  }

  /** The output stays sorted, and only the last version of a key in it can be at or below the
      smallest snapshot. */
  lemma {:induction false} KeptSorted(es: seq<Entry>, n: nat, smallestSnapshot: nat, base: Key -> bool)
    requires Sorted(es) && n <= |es|
    ensures Sorted(Kept(es, n, smallestSnapshot, base))
    ensures Thin(Kept(es, n, smallestSnapshot, base), smallestSnapshot)
  {
    if n > 0 {
      KeptSorted(es, n - 1, smallestSnapshot, base);
      var init := Kept(es, n - 1, smallestSnapshot, base);
      forall i | 0 <= i < |init|
        ensures Before(init[i], es[n - 1])
        ensures init[i].key == es[n - 1].key && init[i].sequence <= smallestSnapshot ==>
          Shadowed(es, n - 1, smallestSnapshot)
      {
        KeptMembers(es, n - 1, smallestSnapshot, base, init[i]);
        var j: nat :| j < n - 1 && es[j] == init[i];
        assert Before(es[j], es[n - 1]);
      }
    }
  }

  /** The bound on snapshots is exact: below it a read can change. */
  lemma OlderSnapshotsAreLost(smallestSnapshot: nat, snapshot: nat, base: Key -> bool, k: Key)
    requires snapshot < smallestSnapshot
    ensures exists es :: Sorted(es) && ReadLevels([es], k, snapshot) !=
                                       ReadLevels([Kept(es, |es|, smallestSnapshot, base)], k, snapshot)
  {
    var new1, old1 := Entry(k, smallestSnapshot, Value, [1]), Entry(k, snapshot, Value, [0]);
    var es := [new1, old1];
    assert Sorted(es);
    assert es[1..] == [old1] && Newest([old1], k, snapshot) == Some(old1);
    assert Newest(es, k, snapshot) == Some(old1);
    assert es[0].key == es[1].key && Shadowed(es, 1, smallestSnapshot);
    var out := Kept(es, 2, smallestSnapshot, base);
    assert Kept(es, 1, smallestSnapshot, base) == [new1];
    assert out == [new1];
    assert Newest(out, k, snapshot) == None;
    assert NewestIn([es], k, snapshot) == Newest(es, k, snapshot);
    assert NewestIn([out], k, snapshot) == NewestIn([], k, snapshot);
  }

  /** The base-level condition is exact too: where a deciding deletion is dropped, the read is kept
      if and only if the deeper levels have nothing readable for the key. */
  lemma DroppedDeletionIsExact(es: seq<Entry>, deeper: seq<seq<Entry>>, smallestSnapshot: nat, base: Key -> bool,
                               k: Key, snapshot: nat)
    requires Sorted(es) && smallestSnapshot <= snapshot
    requires Newest(es, k, snapshot).Some? && ObsoleteDeletion(Newest(es, k, snapshot).value, smallestSnapshot, base)
    ensures ReadLevels([Kept(es, |es|, smallestSnapshot, base)] + deeper, k, snapshot)
         == ReadLevels([es] + deeper, k, snapshot)
       <==> ReadLevels(deeper, k, snapshot) == None
  {
    KeptDecides(es, smallestSnapshot, base, k, snapshot);
    assert ([es] + deeper)[1..] == deeper;
    assert ([Kept(es, |es|, smallestSnapshot, base)] + deeper)[1..] == deeper;
  }
}
