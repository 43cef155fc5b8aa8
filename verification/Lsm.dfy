/** Versioned entries of a log-structured store and what a read at a snapshot means. */
module Lsm {
  import opened Coding
  import opened Keys

  /** The largest sequence number: 56 bits. */
  const MAX_SEQUENCE: nat := 0xff_ffff_ffff_ffff

  datatype Kind = Deletion | Value

  datatype Entry = Entry(key: Key, sequence: nat, kind: Kind, value: Bytes)

  /** The internal key order: user key ascending, then sequence descending. */
  predicate Before(a: Entry, b: Entry) {
    Less(a.key, b.key) || (a.key == b.key && a.sequence > b.sequence)
  }

  ghost predicate Sorted(es: seq<Entry>) {
    forall i, j :: 0 <= i < j < |es| ==> Before(es[i], es[j])
  }

  predicate Visible(e: Entry, k: Key, snapshot: nat) {
    e.key == k && e.sequence <= snapshot
  }

  /** The newest entry for `k` with a sequence at or below the snapshot. */
  function Newest(es: seq<Entry>, k: Key, snapshot: nat): (r: Option<Entry>)
    ensures r.Some? ==> r.value in es && Visible(r.value, k, snapshot)
    ensures r.Some? ==> forall e :: e in es && Visible(e, k, snapshot) ==> e.sequence <= r.value.sequence
    ensures r.None? ==> forall e :: e in es ==> !Visible(e, k, snapshot)
  {
    if es == [] then None
    else
      var rest := Newest(es[1..], k, snapshot);
      if Visible(es[0], k, snapshot) && (rest.None? || rest.value.sequence <= es[0].sequence)
      then Some(es[0])
      else rest
  }

  /** What a read of `k` at the snapshot returns: the newest visible value, nothing if there is
      none or it is a deletion. */
  function Read(es: seq<Entry>, k: Key, snapshot: nat): Option<Bytes> {
    match Newest(es, k, snapshot)
    case Some(e) => if e.kind == Value then Some(e.value) else None
    case None => None
  }

  /** es[i] decides what a read of its key returns. */
  ghost predicate Decides(es: seq<Entry>, snapshot: nat, i: nat) {
    && i < |es| && es[i].sequence <= snapshot
    && forall j :: 0 <= j < i && es[j].key == es[i].key ==> es[j].sequence > snapshot
  }

  /** es[i] is the entry that makes its key readable at the snapshot. */
  ghost predicate LiveAt(es: seq<Entry>, snapshot: nat, i: nat) {
    Decides(es, snapshot, i) && es[i].kind == Value
  }

  /** Two entries of a sorted sequence that are the same version of the same key are the same. */
  lemma SameVersion(es: seq<Entry>, a: Entry, b: Entry)
    requires Sorted(es) && a in es && b in es
    ensures a.key == b.key && a.sequence == b.sequence ==> a == b
  {
    var i, j :| 0 <= i < |es| && es[i] == a && 0 <= j < |es| && es[j] == b;
    LessIrreflexive(a.key);
    assert i < j ==> Before(a, b);
    assert j < i ==> Before(b, a);
  }

  /** In a sorted sequence the deciding entry is the one a read finds. */
  lemma DecidesIsNewest(es: seq<Entry>, snapshot: nat, i: nat)
    requires Sorted(es) && Decides(es, snapshot, i)
    ensures Newest(es, es[i].key, snapshot) == Some(es[i])
  {
    var k := es[i].key;
    var r := Newest(es, k, snapshot);
    assert es[i] in es && Visible(es[i], k, snapshot);
    var j :| 0 <= j < |es| && es[j] == r.value;
    LessIrreflexive(k);
    assert j > i ==> Before(es[i], es[j]);
  }

  /** A read answers with `v` exactly when a live entry for the key holds `v`. */
  lemma ReadIsLive(es: seq<Entry>, k: Key, snapshot: nat, v: Bytes)
    requires Sorted(es)
    ensures Read(es, k, snapshot) == Some(v)
      <==> exists i: nat :: LiveAt(es, snapshot, i) && es[i].key == k && es[i].value == v
  {
    forall i: nat | LiveAt(es, snapshot, i) && es[i].key == k
      ensures Newest(es, k, snapshot) == Some(es[i])
    {
      DecidesIsNewest(es, snapshot, i);
    }
    var r := Newest(es, k, snapshot);
    if r.Some? && r.value.kind == Value && r.value.value == v {
      var i: nat :| i < |es| && es[i] == r.value;
      forall j | 0 <= j < i && es[j].key == k
        ensures es[j].sequence > snapshot
      {
        LessIrreflexive(k);
        assert Before(es[j], es[i]);
        assert es[j] in es;
      }
      assert LiveAt(es, snapshot, i);
    }
  }

  /** The readable pairs among the first `n` entries, in order. */
  ghost function View(es: seq<Entry>, snapshot: nat, n: nat): seq<(Key, Bytes)>
    requires n <= |es|
  {
    if n == 0 then []
    else if LiveAt(es, snapshot, n - 1) then View(es, snapshot, n - 1) + [(es[n - 1].key, es[n - 1].value)]
    else View(es, snapshot, n - 1)
  }

  /** All readable pairs of a store. */
  ghost function FullView(es: seq<Entry>, snapshot: nat): seq<(Key, Bytes)> {
    View(es, snapshot, |es|)
  }

  lemma {:induction false} ViewGrows(es: seq<Entry>, snapshot: nat, m: nat, n: nat)
    requires m <= n <= |es|
    ensures View(es, snapshot, m) <= View(es, snapshot, n)
    ensures (forall i: nat :: m <= i < n ==> !LiveAt(es, snapshot, i)) ==>
      View(es, snapshot, m) == View(es, snapshot, n)
    decreases n
  {
    if m < n {
      ViewGrows(es, snapshot, m, n - 1);
    }
  }

  /** The position of a live entry in the view. */
  lemma LiveInView(es: seq<Entry>, snapshot: nat, i: nat)
    requires LiveAt(es, snapshot, i)
    ensures |View(es, snapshot, i)| < |FullView(es, snapshot)|
    ensures FullView(es, snapshot)[|View(es, snapshot, i)|] == (es[i].key, es[i].value)
  {
    ViewGrows(es, snapshot, i + 1, |es|);
  }

  lemma {:induction false} ViewFromLive(es: seq<Entry>, snapshot: nat, n: nat, p: nat)
    requires n <= |es| && p < |View(es, snapshot, n)|
    ensures exists i: nat ::
      && i < n && LiveAt(es, snapshot, i) && |View(es, snapshot, i)| == p
      && View(es, snapshot, n)[p] == (es[i].key, es[i].value)
  {
    if LiveAt(es, snapshot, n - 1) && p == |View(es, snapshot, n - 1)| {
    } else {
      ViewFromLive(es, snapshot, n - 1, p);
    }
  }

  /** The view lists every readable key once, in ascending order, with the value a read returns. */
  lemma ViewIsAscendingReads(es: seq<Entry>, snapshot: nat)
    requires Sorted(es)
    ensures forall p, q :: 0 <= p < q < |FullView(es, snapshot)| ==>
              Less(FullView(es, snapshot)[p].0, FullView(es, snapshot)[q].0)
    ensures forall k, v :: (k, v) in FullView(es, snapshot) <==> Read(es, k, snapshot) == Some(v)
  {
    var view := FullView(es, snapshot);
    forall p, q | 0 <= p < q < |view| ensures Less(view[p].0, view[q].0) {
      ViewFromLive(es, snapshot, |es|, p);
      ViewFromLive(es, snapshot, |es|, q);
      var i: nat :| i < |es| && LiveAt(es, snapshot, i) && |View(es, snapshot, i)| == p
        && view[p] == (es[i].key, es[i].value);
      var j: nat :| j < |es| && LiveAt(es, snapshot, j) && |View(es, snapshot, j)| == q
        && view[q] == (es[j].key, es[j].value);
      if j < i {
        ViewGrows(es, snapshot, j, i);
      }
      assert i < j;
      assert Before(es[i], es[j]);
    }
    forall k, v ensures (k, v) in view <==> Read(es, k, snapshot) == Some(v) {
      ReadIsLive(es, k, snapshot, v);
      if (k, v) in view {
        var p: nat :| p < |view| && view[p] == (k, v);
        ViewFromLive(es, snapshot, |es|, p);
      }
      if i: nat :| LiveAt(es, snapshot, i) && es[i].key == k && es[i].value == v {
        LiveInView(es, snapshot, i);
      }
    }
  }
}
