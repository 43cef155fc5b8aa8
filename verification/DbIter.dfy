/** The user-facing iterator: it moves over internal entries, hides what the snapshot must not
    see, and can change direction at any time. */
module DbIter {
  import opened Coding
  import opened Keys
  import opened Lsm

  /** An internal iterator over sorted entries. Once off either end it is merely invalid. */
  class Cursor {
    const entries: seq<Entry>
    var pos: nat

    constructor (entries: seq<Entry>)
      ensures this.entries == entries && !Valid()
    {
      this.entries := entries;
      pos := |entries|;
    }

    predicate Valid()
      reads this
    {
      pos < |entries|
    }

    method SeekToFirst()
      modifies this
      ensures Valid() <==> entries != []
      ensures Valid() ==> pos == 0
    {
      pos := 0;
    }

    method SeekToLast()
      modifies this
      ensures Valid() <==> entries != []
      ensures Valid() ==> pos == |entries| - 1
    {
      pos := if entries == [] then 0 else |entries| - 1;
    }

    method Next()
      requires Valid()
      modifies this
      ensures Valid() <==> old(pos) + 1 < |entries|
      ensures Valid() ==> pos == old(pos) + 1
    {
      pos := pos + 1;
    }

    method Prev()
      requires Valid()
      modifies this
      ensures Valid() <==> old(pos) > 0
      ensures Valid() ==> pos == old(pos) - 1
    {
      pos := if pos == 0 then |entries| else pos - 1;
    }
  }

  datatype Direction = Forward | Reverse

  // ---------------------------------------------------------------------------------------
  // The forward scan, as values

  /** The key up to which the forward scan from `p` hides values once it has reached `i`: that of the last
      deletion it passed, or the one it was given. */
  ghost function SkipKey(es: seq<Entry>, snapshot: nat, p: nat, skip: Option<Key>, i: nat): Option<Key>
    requires p <= i <= |es|
  {
    if i == p then skip
    else if es[i - 1].sequence <= snapshot && es[i - 1].kind == Deletion then Some(es[i - 1].key)
    else SkipKey(es, snapshot, p, skip, i - 1)
  }

  /** The scan from `p` would stop at `i`. */
  ghost predicate Stops(es: seq<Entry>, snapshot: nat, p: nat, skip: Option<Key>, i: nat)
    requires p <= i < |es|
  {
    && es[i].sequence <= snapshot && es[i].kind == Value
    && var k := SkipKey(es, snapshot, p, skip, i);
       k.None? || Less(k.value, es[i].key)
  }

  /** Keys below, or at, the key to be skipped. */
  predicate Hidden(skip: Option<Key>, k: Key) {
    skip.Some? && AtMost(k, skip.value)
  }

  /** How the iterator uses the scan: from the start, or past the key it has shown. */
  ghost predicate StartsPast(es: seq<Entry>, snapshot: nat, p: nat, skip: Option<Key>)
    requires p <= |es|
  {
    if skip.None? then p == 0
    else
      && (forall j :: 0 <= j < p ==> AtMost(es[j].key, skip.value))
      && (forall j :: p <= j < |es| && es[j].sequence <= snapshot ==> AtMost(skip.value, es[j].key))
  }

  /** The hidden range only grows, and ends at the given key or at that of a deletion passed. */
  lemma {:induction false} SkipGrows(es: seq<Entry>, snapshot: nat, p: nat, skip: Option<Key>, i: nat, j: nat)
    requires Sorted(es) && p <= i <= j <= |es| && StartsPast(es, snapshot, p, skip)
    ensures
      var a, b := SkipKey(es, snapshot, p, skip, i), SkipKey(es, snapshot, p, skip, j);
      && (a.Some? ==> b.Some? && AtMost(a.value, b.value))
      && (b.Some? ==> b == skip || exists d :: p <= d < j && es[d].key == b.value && es[d].sequence <= snapshot)
    decreases j
  {
    LessIsStrictTotalOrder();
    if p < j {
      SkipGrows(es, snapshot, p, skip, if i < j then i else j - 1, j - 1);
      if es[j - 1].sequence <= snapshot && es[j - 1].kind == Deletion {
        var before := SkipKey(es, snapshot, p, skip, j - 1);
        assert before.Some? ==> AtMost(before.value, es[j - 1].key);
      }
    }
  }

  /** A value that the scan passes is hidden by the given key or by a newer deletion of its own key. */
  lemma PassedIsNotLive(es: seq<Entry>, snapshot: nat, p: nat, skip: Option<Key>, j: nat)
    requires Sorted(es) && p <= j < |es| && StartsPast(es, snapshot, p, skip)
    requires LiveAt(es, snapshot, j) && !Stops(es, snapshot, p, skip, j)
    ensures Hidden(skip, es[j].key)
  {
    LessIsStrictTotalOrder();
    SkipGrows(es, snapshot, p, skip, p, j);
    forall d | p <= d < j && es[d].sequence <= snapshot ensures Less(es[d].key, es[j].key) {
      assert Before(es[d], es[j]);
    }
  }

  /** Where the scan stops first, the entry is live and not hidden. */
  lemma StopIsLive(es: seq<Entry>, snapshot: nat, p: nat, skip: Option<Key>, n: nat)
    requires Sorted(es) && p <= n < |es| && StartsPast(es, snapshot, p, skip)
    requires Stops(es, snapshot, p, skip, n) && forall j :: p <= j < n ==> !Stops(es, snapshot, p, skip, j)
    ensures LiveAt(es, snapshot, n) && !Hidden(skip, es[n].key)
  {
    LessIsStrictTotalOrder();
    forall j | 0 <= j < n && (j >= p ==> es[j].sequence <= snapshot) ensures Less(es[j].key, es[n].key) {
      BelowStop(es, snapshot, p, skip, j, n);
    }
    SkipGrows(es, snapshot, p, skip, p, n);
  }

  /** What the scan has behind it when it stops is below the key it stops at. */
  lemma BelowStop(es: seq<Entry>, snapshot: nat, p: nat, skip: Option<Key>, j: nat, n: nat)
    requires Sorted(es) && p <= n < |es| && j < n
    requires StartsPast(es, snapshot, p, skip) && Stops(es, snapshot, p, skip, n)
    requires j >= p ==> es[j].sequence <= snapshot && !Stops(es, snapshot, p, skip, j)
    ensures Less(es[j].key, es[n].key)
  {
    LessIsStrictTotalOrder();
    if j < p {
      SkipGrows(es, snapshot, p, skip, p, n);
    } else if es[j].kind == Deletion {
      SkipGrows(es, snapshot, p, skip, j + 1, n);
    } else {
      SkipGrows(es, snapshot, p, skip, j, n);
    }
  }

  // ---------------------------------------------------------------------------------------
  // The backward scan, as values

  /** The backward scan from `start` has passed everything after `q`: the only live entry there can be `t`,
      the last visible one it met, which it has saved if it is a value. */
  ghost predicate ScannedBack(es: seq<Entry>, snapshot: nat, q: int, start: nat,
                              kind: Kind, t: nat, key: Key, value: Bytes)
  {
    && -1 <= q <= start < |es|
    && (forall j: nat :: LiveAt(es, snapshot, j) && q < j <= start ==> kind == Value && j == t)
    && (kind == Value ==>
          && q < t <= start && es[t].kind == Value && es[t].sequence <= snapshot
          && key == es[t].key && value == es[t].value
          && forall j :: q < j < t ==> es[j].sequence > snapshot)
  }

  lemma PassUnseen(es: seq<Entry>, snapshot: nat, q: nat, start: nat, kind: Kind, t: nat, key: Key, value: Bytes)
    requires ScannedBack(es, snapshot, q, start, kind, t, key, value) && es[q].sequence > snapshot
    ensures ScannedBack(es, snapshot, q - 1, start, kind, t, key, value)
  {
  }

  /** Meeting a visible entry of the same key, or any after a deletion. */
  lemma PassSeen(es: seq<Entry>, snapshot: nat, q: nat, start: nat, kind: Kind, t: nat, key: Key, value: Bytes)
    requires Sorted(es) && ScannedBack(es, snapshot, q, start, kind, t, key, value)
    requires es[q].sequence <= snapshot && !(kind == Value && Less(es[q].key, key))
    ensures ScannedBack(es, snapshot, q - 1, start, es[q].kind, q, es[q].key, es[q].value)
  {
    if kind == Value {
      assert Before(es[q], es[t]);
    }
  }

  /** A saved value is live once the scan has met a smaller visible key or the front. */
  lemma SavedIsLive(es: seq<Entry>, snapshot: nat, q: int, start: nat, t: nat, key: Key, value: Bytes)
    requires Sorted(es) && ScannedBack(es, snapshot, q, start, Value, t, key, value)
    requires q >= 0 ==> es[q].sequence <= snapshot && Less(es[q].key, key)
    ensures LiveAt(es, snapshot, t)
  {
    LessIsStrictTotalOrder();
    forall j | 0 <= j < q ensures Less(es[j].key, es[t].key) {
      assert Before(es[j], es[q]);
    }
  }

  class DbIterator {
    const iter: Cursor
    const sequence: nat            // the snapshot
    var valid: bool
    var direction: Direction
    var savedKey: Key
    var savedValue: Bytes
    ghost var at: nat              // index of the live entry the iterator shows, when valid

    /** Where the internal iterator stands relative to the shown entry: on it going forward; going
        backward, on the nearest earlier visible entry, which has a smaller key, or off the front. */
    ghost predicate Placed()
      reads this, iter
    {
      var es := iter.entries;
      && LiveAt(es, sequence, at)
      && match direction
         case Forward => iter.pos == at
         case Reverse =>
           && savedKey == es[at].key && savedValue == es[at].value
           && (iter.Valid() ==>
                 iter.pos < at && Less(es[iter.pos].key, es[at].key) && es[iter.pos].sequence <= sequence)
           && (forall j :: (iter.Valid() ==> iter.pos < j) && 0 <= j < at ==> es[j].sequence > sequence)
    }

    ghost predicate Inv()
      reads this, iter
    {
      Sorted(iter.entries) && (valid ==> Placed())
    }

    constructor (entries: seq<Entry>, snapshot: nat)
      requires Sorted(entries)
      ensures Inv() && !valid && iter.entries == entries && sequence == snapshot && fresh(iter)
    {
      iter := new Cursor(entries);
      sequence := snapshot;
      valid, direction, savedKey, savedValue, at := false, Forward, [], [], 0;
    }

    function CurrentKey(): Key
      requires valid && Inv()
      reads this, iter
    {
      if direction == Forward then iter.entries[iter.pos].key else savedKey
    }

    function CurrentValue(): Bytes
      requires valid && Inv()
      reads this, iter
    {
      if direction == Forward then iter.entries[iter.pos].value else savedValue
    }

    /** The readable pairs of the store at the snapshot. */
    ghost function Pairs(): seq<(Key, Bytes)> {
      FullView(iter.entries, sequence)
    }

    /** The position in that list of the pair the iterator shows. */
    ghost function Index(): nat
      requires valid && Inv()
      reads this, iter
    {
      |View(iter.entries, sequence, at)|
    }

    /** What the user sees is the pair at the iterator's index. */
    lemma ShowsPair()
      requires valid && Inv()
      ensures Index() < |Pairs()|
      ensures (CurrentKey(), CurrentValue()) == Pairs()[Index()]
    {
      LiveInView(iter.entries, sequence, at);
    }

    /** The forward scan from any position and with any key to skip: it lands on the first entry where it
        may stop, or makes the iterator invalid if there is none. */
    method FindNextUserEntry(skipping0: bool, skip0: Key)
      requires iter.Valid() && direction == Forward
      modifies this, iter
      ensures direction == Forward
      ensures
        var es, p, given := iter.entries, old(iter.pos), if skipping0 then Some(skip0) else None;
        && (valid ==> iter.Valid() && p <= iter.pos == at && Stops(es, sequence, p, given, at))
        && forall j :: p <= j < |es| && (valid ==> j < at) ==> !Stops(es, sequence, p, given, j)
    {
      LessIsStrictTotalOrder();
      ghost var es, p, given := iter.entries, iter.pos, if skipping0 then Some(skip0) else None;
      var skipping, skip := skipping0, skip0;
      while true
        invariant iter.Valid() && direction == Forward && p <= iter.pos
        invariant SkipKey(es, sequence, p, given, iter.pos) == if skipping then Some(skip) else None
        invariant forall j :: p <= j < iter.pos ==> !Stops(es, sequence, p, given, j)
        decreases |es| - iter.pos
      {
        var e := iter.entries[iter.pos];
        if e.sequence <= sequence {
          match e.kind
          case Deletion =>
            skip := e.key;
            skipping := true;
          case Value =>
            if skipping && !Less(skip, e.key) {
              // Entry hidden
            } else {
              valid := true;
              savedKey := [];
              at := iter.pos;
              return;
            }
        }
        iter.Next();
        if !iter.Valid() {
          break;
        }
      }
      savedKey := [];
      valid := false;
    }

    /** The scan as the iterator uses it lands on the next live entry that is not hidden. */
    method FindNextLive(skipping: bool, skip: Key)
      requires Sorted(iter.entries) && iter.Valid() && direction == Forward
      requires StartsPast(iter.entries, sequence, iter.pos, if skipping then Some(skip) else None)
      modifies this, iter
      ensures Inv() && direction == Forward
      ensures
        var given := if skipping then Some(skip) else None;
        && (valid ==> !Hidden(given, iter.entries[at].key))
        && forall j: nat :: LiveAt(iter.entries, sequence, j) && (valid ==> j < at) ==>
             Hidden(given, iter.entries[j].key)
    {
      ghost var es, p, given := iter.entries, iter.pos, if skipping then Some(skip) else None;
      FindNextUserEntry(skipping, skip);
      if valid {
        StopIsLive(es, sequence, p, given, at);
      }
      forall j: nat | LiveAt(es, sequence, j) && (valid ==> j < at) ensures Hidden(given, es[j].key) {
        if p <= j {
          PassedIsNotLive(es, sequence, p, given, j);
        }
      }
    }

    /** The backward scan from the current position: it must pass the entry it will show, because
        only the entry before it tells that no newer version follows. */
    method FindPrevUserEntry()
      requires Sorted(iter.entries) && direction == Reverse
      modifies this, iter
      ensures Inv()
      ensures valid ==> direction == Reverse
      ensures valid ==> old(iter.Valid()) && at <= old(iter.pos)
      ensures forall j: nat :: LiveAt(iter.entries, sequence, j) && old(iter.Valid()) && j <= old(iter.pos) ==>
                valid && j <= at
    {
      ghost var es, start := iter.entries, iter.pos;
      var valueType := Deletion;
      ghost var t := iter.pos;
      ghost var q: int := if iter.Valid() then iter.pos else -1;
      if iter.Valid() {
        while true
          invariant iter.Valid() && q == iter.pos && direction == Reverse
          invariant ScannedBack(es, sequence, q, start, valueType, t, savedKey, savedValue)
          decreases q
        {
          var e := iter.entries[iter.pos];
          if e.sequence <= sequence {
            if valueType != Deletion && Less(e.key, savedKey) {
              break;
            }
            PassSeen(es, sequence, q, start, valueType, t, savedKey, savedValue);
            valueType := e.kind;
            t := iter.pos;
            if valueType == Deletion {
              savedKey := [];
              savedValue := [];
            } else {
              savedKey := e.key;
              savedValue := e.value;
            }
          } else {
            PassUnseen(es, sequence, q, start, valueType, t, savedKey, savedValue);
          }
          q := q - 1;
          iter.Prev();
          if !iter.Valid() {
            break;
          }
        }
      }
      if valueType == Deletion {
        valid := false;
        savedKey := [];
        savedValue := [];
        direction := Forward;
      } else {
        SavedIsLive(es, sequence, q, start, t, savedKey, savedValue);
        valid := true;
        at := t;
      }
    }

    method SeekToFirst()
      requires Inv()
      modifies this, iter
      ensures Inv()
      ensures valid <==> Pairs() != []
      ensures valid ==> Index() == 0
    {
      direction := Forward;
      savedValue := [];
      iter.SeekToFirst();
      if iter.Valid() {
        FindNextLive(false, savedKey);
      } else {
        valid := false;
      }
      if valid {
        ShowsPair();
        ViewGrows(iter.entries, sequence, 0, at);
      } else {
        ViewGrows(iter.entries, sequence, 0, |iter.entries|);
      }
    }

    method SeekToLast()
      requires Inv()
      modifies this, iter
      ensures Inv()
      ensures valid <==> Pairs() != []
      ensures valid ==> Index() == |Pairs()| - 1
    {
      direction := Reverse;
      savedValue := [];
      iter.SeekToLast();
      FindPrevUserEntry();
      if valid {
        ShowsPair();
        ViewGrows(iter.entries, sequence, at + 1, |iter.entries|);
      } else {
        ViewGrows(iter.entries, sequence, 0, |iter.entries|);
      }
    }

    method Next()
      requires Inv() && valid
      modifies this, iter
      ensures Inv()
      ensures valid <==> old(Index()) + 1 < |Pairs()|
      ensures valid ==> Index() == old(Index()) + 1
    {
      LessIsStrictTotalOrder();
      if direction == Reverse {
        direction := Forward;
        if !iter.Valid() {
          iter.SeekToFirst();
        } else {
          iter.Next();
        }
        // The listing gives up here when iter is invalid; it cannot be, as the shown entry lies ahead.
        assert iter.Valid();
      } else {
        savedKey := iter.entries[iter.pos].key;
      }
      FindNextLive(true, savedKey);
      if valid {
        Neighbours(iter.entries, sequence, old(at), at);
        LiveInView(iter.entries, sequence, at);
      } else {
        Neighbours(iter.entries, sequence, old(at), |iter.entries|);
      }
    }

    method Prev()
      requires Inv() && valid
      modifies this, iter
      ensures Inv()
      ensures valid <==> old(Index()) > 0
      ensures valid ==> Index() == old(Index()) - 1
    {
      LessIsStrictTotalOrder();
      ghost var es := iter.entries;
      if direction == Forward {
        savedKey := iter.entries[iter.pos].key;
        while true
          invariant iter.Valid() && iter.pos <= at < |es| && direction == Forward
          invariant at == old(at) && LiveAt(es, sequence, at)
          invariant forall j :: iter.pos <= j <= at ==> es[j].key == savedKey
          decreases iter.pos
        {
          iter.Prev();
          if !iter.Valid() {
            valid := false;
            savedKey := [];
            savedValue := [];
            ViewGrows(es, sequence, 0, old(at));
            return;
          }
          if Less(iter.entries[iter.pos].key, savedKey) {
            break;
          }
        }
        direction := Reverse;
      }
      FindPrevUserEntry();
      ViewGrows(iter.entries, sequence, 0, old(at));
      if valid {
        Neighbours(iter.entries, sequence, at, old(at));
      }
    }
  }

  /** Two live entries with no live entry between them are neighbours in the view. */
  lemma Neighbours(es: seq<Entry>, snapshot: nat, i: nat, j: nat)
    requires i < j <= |es| && LiveAt(es, snapshot, i)
    requires forall m: nat :: i < m < j ==> !LiveAt(es, snapshot, m)
    ensures |View(es, snapshot, j)| == |View(es, snapshot, i)| + 1
  {
    ViewGrows(es, snapshot, i + 1, j);
  }

  datatype Move = ToNext | ToPrev

  /** A walk over a list of `n` items from item `i`; it ends when it falls off either end. */
  function Walk(n: nat, i: nat, moves: seq<Move>): Option<nat>
    decreases moves
  {
    if moves == [] then Some(i)
    else match moves[0]
      case ToNext => if i + 1 < n then Walk(n, i + 1, moves[1..]) else None
      case ToPrev => if i > 0 then Walk(n, i - 1, moves[1..]) else None
  }

  /** Any mixture of Next and Prev is the same walk over the list of readable pairs. */
  method Apply(it: DbIterator, moves: seq<Move>)
    requires it.Inv() && it.valid
    modifies it, it.iter
    ensures it.Inv()
    ensures it.valid <==> Walk(|it.Pairs()|, old(it.Index()), moves).Some?
    ensures it.valid ==> Walk(|it.Pairs()|, old(it.Index()), moves) == Some(it.Index())
    ensures it.valid ==> it.Index() < |it.Pairs()| && (it.CurrentKey(), it.CurrentValue()) == it.Pairs()[it.Index()]
  {
    var i := 0;
    while i < |moves| && it.valid
      invariant i <= |moves| && it.Inv()
      invariant Walk(|it.Pairs()|, old(it.Index()), moves)
        == if it.valid then Walk(|it.Pairs()|, it.Index(), moves[i..]) else None
      decreases |moves| - i
    {
      if moves[i] == ToNext { it.Next(); } else { it.Prev(); }
      i := i + 1;
    }
    if it.valid {
      it.ShowsPair();
    }
  }

  /** A full forward scan returns exactly the readable pairs in order. */
  method Scan(it: DbIterator) returns (pairs: seq<(Key, Bytes)>)
    requires it.Inv()
    modifies it, it.iter
    ensures it.Inv() && !it.valid
    ensures pairs == it.Pairs()
  {
    pairs := [];
    it.SeekToFirst();
    ghost var all := it.Pairs();
    while it.valid
      invariant it.Inv() && |pairs| <= |all| && pairs == all[..|pairs|]
      invariant if it.valid then it.Index() == |pairs| else pairs == all
      decreases |all| - |pairs|, it.valid
    {
      it.ShowsPair();
      pairs := pairs + [(it.CurrentKey(), it.CurrentValue())];
      it.Next();
    }
  }
}
