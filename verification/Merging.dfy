/** The merging iterator: one sorted stream out of many sorted children. */
module Merging {
  import opened Keys
  import opened Lsm

  /** Each child is sorted, and no version of a key occurs in two children. */
  ghost predicate Mergeable(children: seq<seq<Entry>>) {
    && (forall i :: 0 <= i < |children| ==> Sorted(children[i]))
    && (forall i, j, p, q :: 0 <= i < j < |children| && 0 <= p < |children[i]| && 0 <= q < |children[j]| ==>
          children[i][p].key != children[j][q].key || children[i][p].sequence != children[j][q].sequence)
  }

  ghost predicate InRange(children: seq<seq<Entry>>, pos: seq<nat>) {
    |pos| == |children| && forall i :: 0 <= i < |pos| ==> pos[i] <= |children[i]|
  }

  /** What the children have not delivered yet. */
  ghost function Remaining(children: seq<seq<Entry>>, pos: seq<nat>): multiset<Entry>
    requires InRange(children, pos)
  {
    if children == [] then multiset{}
    else multiset(children[0][pos[0]..]) + Remaining(children[1..], pos[1..])
  }

  ghost function All(children: seq<seq<Entry>>): multiset<Entry> {
    if children == [] then multiset{} else multiset(children[0]) + All(children[1..])
  }

  lemma {:induction false} NothingDelivered(children: seq<seq<Entry>>, pos: seq<nat>)
    requires InRange(children, pos) && forall i :: 0 <= i < |pos| ==> pos[i] == 0
    ensures Remaining(children, pos) == All(children)
  {
    if children != [] {
      NothingDelivered(children[1..], pos[1..]);
      assert children[0][0..] == children[0];
    }
  }

  lemma {:induction false} NothingRemains(children: seq<seq<Entry>>, pos: seq<nat>)
    requires InRange(children, pos) && forall i :: 0 <= i < |pos| ==> pos[i] == |children[i]|
    ensures Remaining(children, pos) == multiset{}
  {
    if children != [] {
      NothingRemains(children[1..], pos[1..]);
    }
  }

  lemma {:induction false} DeliverOne(children: seq<seq<Entry>>, pos: seq<nat>, c: nat)
    requires InRange(children, pos) && c < |pos| && pos[c] < |children[c]|
    ensures InRange(children, pos[c := pos[c] + 1])
    ensures Remaining(children, pos) == multiset{children[c][pos[c]]} + Remaining(children, pos[c := pos[c] + 1])
  {
    var pos' := pos[c := pos[c] + 1];
    if c == 0 {
      assert children[0][pos[0]..] == [children[0][pos[0]]] + children[0][pos[0] + 1..];
      assert pos'[1..] == pos[1..];
    } else {
      DeliverOne(children[1..], pos[1..], c - 1);
      assert pos'[1..] == pos[1..][c - 1 := pos[1..][c - 1] + 1];
    }
  }

  /** The merge so far: sorted, complete together with what remains, and ahead of all of it. */
  ghost predicate Merged(children: seq<seq<Entry>>, pos: seq<nat>, delivered: seq<Entry>) {
    && InRange(children, pos)
    && Sorted(delivered)
    && multiset(delivered) + Remaining(children, pos) == All(children)
    && (forall d, i, p :: 0 <= d < |delivered| && 0 <= i < |children| && pos[i] <= p < |children[i]| ==>
          Before(delivered[d], children[i][p]))
  }

  /** `c` is a child whose head comes before the heads of the first `n` other live children. */
  ghost predicate Smallest(children: seq<seq<Entry>>, pos: seq<nat>, c: int, n: nat)
    requires n <= |children| && InRange(children, pos)
  {
    if c < 0 then c == -1 && forall i :: 0 <= i < n ==> pos[i] == |children[i]|
    else
      && c < |children| && pos[c] < |children[c]|
      && forall i :: 0 <= i < n && i != c && pos[i] < |children[i]| ==>
           Before(children[c][pos[c]], children[i][pos[i]])
  }

  /** The smallest head comes before every other entry not yet delivered. */
  lemma HeadIsLeast(children: seq<seq<Entry>>, pos: seq<nat>, c: nat)
    requires Mergeable(children) && InRange(children, pos) && Smallest(children, pos, c, |children|)
    ensures forall i, p :: 0 <= i < |children| && pos[i] <= p < |children[i]| && (i != c || p != pos[c]) ==>
              Before(children[c][pos[c]], children[i][p])
  {
    LessIsStrictTotalOrder();
    forall i, p | 0 <= i < |children| && pos[i] <= p < |children[i]| && (i != c || p != pos[c])
      ensures Before(children[c][pos[c]], children[i][p])
    {
      assert Sorted(children[i]);
      assert p > pos[i] ==> Before(children[i][pos[i]], children[i][p]);
    }
  }

  /** Delivering the smallest head keeps the merge. */
  lemma MergeStep(children: seq<seq<Entry>>, pos: seq<nat>, delivered: seq<Entry>, c: nat)
    requires Mergeable(children) && Merged(children, pos, delivered) && Smallest(children, pos, c, |children|)
    ensures Merged(children, pos[c := pos[c] + 1], delivered + [children[c][pos[c]]])
  {
    HeadIsLeast(children, pos, c);
    DeliverOne(children, pos, c);
    DeliveredAhead(children, pos, delivered, c);
  }

  lemma DeliveredAhead(children: seq<seq<Entry>>, pos: seq<nat>, delivered: seq<Entry>, c: nat)
    requires Merged(children, pos, delivered) && c < |children| && pos[c] < |children[c]|
    ensures Sorted(delivered + [children[c][pos[c]]])
  {
  }

  class MergingIterator {
    const children: seq<seq<Entry>>
    const pos: array<nat>             // the position of each child's iterator
    var current: int                  // index of the child with the smallest key, or -1
    ghost var delivered: seq<Entry>   // entries already moved past

    ghost predicate Valid()
      reads this, pos
    {
      Mergeable(children) && Merged(children, pos[..], delivered)
    }

    ghost predicate Positioned()
      reads this, pos
    {
      Valid() && Smallest(children, pos[..], current, |children|)
    }

    constructor (children: seq<seq<Entry>>)
      requires Mergeable(children)
      ensures Valid() && this.children == children && fresh(pos) && current == -1
    {
      this.children := children;
      pos := new nat[|children|](_ => 0);
      current := -1;
      delivered := [];
      new;
      NothingDelivered(children, pos[..]);
    }

    /** The key the iterator shows. */
    function Head(): Entry
      requires Positioned() && current >= 0
      reads this, pos
    {
      children[current][pos[current]]
    }

    method FindSmallest()
      requires Valid()
      modifies this`current
      ensures Positioned()
    {
      LessIsStrictTotalOrder();
      var smallest := -1;
      var i := 0;
      while i < |children|
        invariant i <= |children| && Smallest(children, pos[..], smallest, i)
      {
        if pos[i] < |children[i]| {
          if smallest == -1 {
            smallest := i;
          } else if Before(children[i][pos[i]], children[smallest][pos[smallest]]) {
            smallest := i;
          }
        }
        i := i + 1;
      }
      current := smallest;
    }

    method SeekToFirst()
      requires Valid()
      modifies this, pos
      ensures Positioned() && delivered == []
    {
      var i := 0;
      while i < |children|
        invariant i <= |children| && InRange(children, pos[..])
        invariant forall j :: 0 <= j < i ==> pos[j] == 0
        modifies pos
      {
        pos[i] := 0;
        i := i + 1;
      }
      delivered := [];
      NothingDelivered(children, pos[..]);
      FindSmallest();
    }

    /** Only the child that showed the smallest key advances. */
    method Next()
      requires Positioned() && current >= 0
      modifies this, pos
      ensures Positioned()
      ensures delivered == old(delivered) + [old(Head())]
    {
      MergeStep(children, pos[..], delivered, current);
      delivered := delivered + [Head()];
      pos[current] := pos[current] + 1;
      assert pos[..] == old(pos[..])[current := old(pos[current]) + 1];
      FindSmallest();
    }
  }

  /** Merging delivers every entry of every child, in internal key order. */
  method Merge(children: seq<seq<Entry>>) returns (merged: seq<Entry>)
    requires Mergeable(children)
    ensures Sorted(merged)
    ensures multiset(merged) == All(children)
  {
    var it := new MergingIterator(children);
    merged := [];
    it.SeekToFirst();
    while it.current >= 0
      invariant it.Positioned() && it.children == children && merged == it.delivered && fresh(it) && fresh(it.pos)
      decreases |All(children)| - |merged|
    {
      assert |multiset(merged)| <= |All(children)|;
      merged := merged + [it.Head()];
      it.Next();
    }
    NothingRemains(children, it.pos[..]);
  }
}
