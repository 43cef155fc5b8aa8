/** The blocks of a table file: entries whose keys share a prefix with the previous key, restart points
    at a fixed interval, and a trailer that lists them. */
module Block {
  import opened Coding

  type Pair = (Bytes, Bytes)

  const LIMIT: nat := 0x1_0000_0000

  function CommonPrefix(a: Bytes, b: Bytes): (n: nat)
    ensures n <= |a| && n <= |b| && a[..n] == b[..n]
    ensures n == |a| || n == |b| || a[n] != b[n]
  {
    if a == [] || b == [] || a[0] != b[0] then 0
    else
      var n := CommonPrefix(a[1..], b[1..]);
      assert a[..n + 1] == [a[0]] + a[1..][..n] && b[..n + 1] == [b[0]] + b[1..][..n];
      1 + n
  }

  // ---------------------------------------------------------------------------------------
  // Writing

  /** One entry: three 32-bit variable-length sizes, the unshared part of the key, and the value. */
  function EntryBytes(shared: nat, key: Bytes, value: Bytes): (bs: Bytes)
    requires shared <= |key|
    ensures |bs| >= 3 + |key| - shared + |value|
  {
    Varint(shared % LIMIT) + (Varint((|key| - shared) % LIMIT) + (Varint(|value| % LIMIT) + (key[shared..] + value)))
  }

  /** How many entries there are since the last restart point, at or before entry `i`. */
  function Since(i: nat, interval: nat): (r: nat)
    requires interval >= 1
    ensures r < interval
  {
    if i == 0 || Since(i - 1, interval) + 1 == interval then 0 else Since(i - 1, interval) + 1
  }

  function KeyBefore(pairs: seq<Pair>, i: nat): Bytes
    requires i <= |pairs|
  {
    if i == 0 then [] else pairs[i - 1].0
  }

  /** How much of its key entry `i` leaves out: nothing at a restart point. */
  function Shared(pairs: seq<Pair>, interval: nat, i: nat): (n: nat)
    requires interval >= 1 && i < |pairs|
    ensures n <= |pairs[i].0| && n <= |KeyBefore(pairs, i)|
    ensures KeyBefore(pairs, i)[..n] == pairs[i].0[..n]
  {
    if Since(i, interval) == 0 then 0 else CommonPrefix(KeyBefore(pairs, i), pairs[i].0)
  }

  /** The entries of a block, one byte string each. */
  function Entries(pairs: seq<Pair>, interval: nat): (r: seq<Bytes>)
    requires interval >= 1
    ensures |r| == |pairs|
  {
    if pairs == [] then []
    else
      var n := |pairs| - 1;
      Entries(pairs[..n], interval) + [EntryBytes(Shared(pairs, interval, n), pairs[n].0, pairs[n].1)]
  }

  lemma {:induction false} EntryAt(pairs: seq<Pair>, interval: nat, i: nat)
    requires interval >= 1 && i < |pairs|
    ensures Entries(pairs, interval)[i] == EntryBytes(Shared(pairs, interval, i), pairs[i].0, pairs[i].1)
  {
    var n := |pairs| - 1;
    if i < n {
      EntryAt(pairs[..n], interval, i);
      assert KeyBefore(pairs[..n], i) == KeyBefore(pairs, i);
    }
  }

  /** Where the restart points are: at the start, and then where the interval is used up. */
  function Restarts(entries: seq<Bytes>, interval: nat): (r: seq<nat>)
    requires interval >= 1
    ensures |r| >= 1
  {
    if entries == [] then [0]
    else
      var n := |entries| - 1;
      Restarts(entries[..n], interval) + if n > 0 && Since(n, interval) == 0 then [|Concat(entries[..n])|] else []
  }

  function Fixeds(ns: seq<nat>): (bs: Bytes)
    ensures |bs| == 4 * |ns|
  {
    if ns == [] then [] else Fixeds(ns[..|ns| - 1]) + Fixed(ns[|ns| - 1], FIXED32)
  }

  /** The finished block. */
  function Finished(entries: seq<Bytes>, interval: nat): Bytes
    requires interval >= 1
  {
    var restarts := Restarts(entries, interval);
    Concat(entries) + Fixeds(restarts) + Fixed(|restarts|, FIXED32)
  }

  // ---------------------------------------------------------------------------------------
  // Reading

  function ReadSizes(bs: Bytes): Option<(nat, nat, nat, Bytes)> {
    match ReadVarint(bs)
    case None => None
    case Some((shared, rest)) =>
      match ReadVarint(rest)
      case None => None
      case Some((unshared, rest')) =>
        match ReadVarint(rest')
        case None => None
        case Some((size, rest'')) => Some((shared, unshared, size, rest''))
  }

  /** One entry after the key `last`: the pair and the bytes that follow. */
  function ReadEntry(last: Bytes, bs: Bytes): Option<(Pair, Bytes)> {
    match ReadSizes(bs)
    case None => None
    case Some((shared, unshared, size, rest)) =>
      if shared <= |last| && unshared + size <= |rest| then
        Some((PairAt(last[..shared], unshared, size, rest), rest[unshared + size..]))
      else None
  }

  function PairAt(prefix: Bytes, unshared: nat, size: nat, rest: Bytes): Pair
    requires unshared + size <= |rest|
  {
    (prefix + rest[..unshared], rest[unshared..unshared + size])
  }

  function ReadEntries(last: Bytes, bs: Bytes): Option<seq<Pair>>
    decreases |bs|
  {
    if bs == [] then Some([])
    else match ReadEntry(last, bs)
      case None => None
      case Some((pair, rest)) =>
        if |rest| < |bs| then
          match ReadEntries(pair.0, rest)
          case None => None
          case Some(pairs) => Some([pair] + pairs)
        else None
  }

  function ReadFixeds(bs: Bytes): seq<nat> {
    if |bs| < 4 then [] else ReadFixeds(bs[..|bs| - 4]) + [Value(bs[|bs| - 4..])]
  }

  /** The entries and the restart points of a block, found from its last four bytes. */
  function ReadBlock(block: Bytes): Option<(Bytes, seq<nat>)> {
    if |block| < 4 then None
    else
      var end := |block| - 4;
      var count := Value(block[end..]);
      if 4 * count <= end then Some((block[..end - 4 * count], ReadFixeds(block[end - 4 * count..end]))) else None
  }

  // ---------------------------------------------------------------------------------------
  // One entry

  lemma SizesRoundTrip(shared: nat, unshared: nat, size: nat, rest: Bytes)
    ensures ReadSizes(Varint(shared) + (Varint(unshared) + (Varint(size) + rest)))
         == Some((shared, unshared, size, rest))
  {
    VarintRoundTrip(shared, Varint(unshared) + (Varint(size) + rest));
    VarintRoundTrip(unshared, Varint(size) + rest);
    VarintRoundTrip(size, rest);
  }

  lemma RegroupEntry(a: Bytes, b: Bytes, c: Bytes, d: Bytes, rest: Bytes)
    ensures (a + (b + (c + d))) + rest == a + (b + (c + (d + rest)))
  {
    Regroup(a, b + (c + d), rest);
    Regroup(b, c + d, rest);
    Regroup(c, d, rest);
  }

  lemma EntrySizes(shared: nat, key: Bytes, value: Bytes, rest: Bytes)
    requires shared <= |key| < LIMIT && |value| < LIMIT
    ensures ReadSizes(EntryBytes(shared, key, value) + rest)
         == Some((shared, |key| - shared, |value|, key[shared..] + value + rest))
  {
    var n := |key| - shared;
    assert shared % LIMIT == shared && n % LIMIT == n && |value| % LIMIT == |value|;
    RegroupEntry(Varint(shared), Varint(n), Varint(|value|), key[shared..] + value, rest);
    SizesRoundTrip(shared, n, |value|, key[shared..] + value + rest);
  }

  lemma PairRoundTrip(shared: nat, key: Bytes, value: Bytes, rest: Bytes)
    requires shared <= |key|
    ensures
      var tail := key[shared..] + value + rest;
      var n := |key| - shared;
      && PairAt(key[..shared], n, |value|, tail) == (key, value)
      && tail[n + |value|..] == rest
  {
    Cut3(key[shared..], value, rest);
    assert key[..shared] + key[shared..] == key;
  }

  lemma ReadAfterSizes(last: Bytes, bs: Bytes, shared: nat, unshared: nat, size: nat, tail: Bytes)
    requires ReadSizes(bs) == Some((shared, unshared, size, tail)) && shared <= |last| && unshared + size <= |tail|
    ensures ReadEntry(last, bs) == Some((PairAt(last[..shared], unshared, size, tail), tail[unshared + size..]))
  {
  }

  /** An entry gives back its pair to a reader that knows the shared part of the key. */
  lemma EntryRoundTrip(last: Bytes, shared: nat, key: Bytes, value: Bytes, rest: Bytes)
    requires shared <= |last| && shared <= |key| && last[..shared] == key[..shared]
    requires |key| < LIMIT && |value| < LIMIT
    ensures ReadEntry(last, EntryBytes(shared, key, value) + rest) == Some(((key, value), rest))
  {
    EntrySizes(shared, key, value, rest);
    PairRoundTrip(shared, key, value, rest);
    ReadAfterSizes(last, EntryBytes(shared, key, value) + rest,
                   shared, |key| - shared, |value|, key[shared..] + value + rest);
  }

  // ---------------------------------------------------------------------------------------
  // All entries

  /** The entry is read as the pair, whatever follows it. */
  ghost predicate Reads(last: Bytes, entry: Bytes, pair: Pair) {
    |entry| > 0 && forall rest :: ReadEntry(last, entry + rest) == Some((pair, rest))
  }

  /** Each entry but the first is read as its pair after the key of the pair before it. */
  ghost predicate Chained(entries: seq<Bytes>, pairs: seq<Pair>) {
    && |entries| == |pairs|
    && forall i :: 0 < i < |entries| ==> Reads(pairs[i - 1].0, entries[i], pairs[i])
  }

  lemma {:induction false} ReadChain(last: Bytes, entries: seq<Bytes>, pairs: seq<Pair>)
    requires Chained(entries, pairs) && (entries != [] ==> Reads(last, entries[0], pairs[0]))
    ensures ReadEntries(last, Concat(entries)) == Some(pairs)
    decreases |entries|
  {
    if entries != [] {
      var rest := Concat(entries[1..]);
      assert entries[0] + rest == Concat(entries);
      assert ReadEntry(last, entries[0] + rest) == Some((pairs[0], rest));
      if entries[1..] != [] {
        assert Reads(pairs[1 - 1].0, entries[1], pairs[1]);
      }
      TailChained(entries, pairs);
      ReadChain(pairs[0].0, entries[1..], pairs[1..]);
      assert [pairs[0]] + pairs[1..] == pairs;
    }
  }

  lemma TailChained(entries: seq<Bytes>, pairs: seq<Pair>)
    requires Chained(entries, pairs) && entries != []
    ensures Chained(entries[1..], pairs[1..])
  {
    forall i | 0 < i < |entries[1..]| ensures Reads(pairs[1..][i - 1].0, entries[1..][i], pairs[1..][i]) {
      assert Reads(pairs[i + 1 - 1].0, entries[i + 1], pairs[i + 1]);
    }
  }

  /** Keys and values within the limit of a 32-bit length. */
  predicate Small(pairs: seq<Pair>) {
    forall i :: 0 <= i < |pairs| ==> |pairs[i].0| < LIMIT && |pairs[i].1| < LIMIT
  }

  /** Entry `i` is read as pair `i` at a restart point, or when the reader knows the key before it. */
  lemma EntryReads(pairs: seq<Pair>, interval: nat, i: nat, last: Bytes)
    requires interval >= 1 && i < |pairs| && Small(pairs)
    requires Since(i, interval) == 0 || last == KeyBefore(pairs, i)
    ensures Reads(last, Entries(pairs, interval)[i], pairs[i])
  {
    var shared := Shared(pairs, interval, i);
    var (key, value) := pairs[i];
    assert last[..shared] == key[..shared];
    EntryAt(pairs, interval, i);
    forall rest ensures ReadEntry(last, EntryBytes(shared, key, value) + rest) == Some(((key, value), rest)) {
      EntryRoundTrip(last, shared, key, value, rest);
    }
  }

  /** Reading from a restart point on gives the pairs from there on. */
  lemma ReadSuffix(pairs: seq<Pair>, interval: nat, i: nat)
    requires interval >= 1 && Small(pairs) && i <= |pairs| && Since(i, interval) == 0
    ensures
      var entries := Entries(pairs, interval);
      var offset := |Concat(entries[..i])|;
      offset <= |Concat(entries)| && ReadEntries([], Concat(entries)[offset..]) == Some(pairs[i..])
  {
    var entries := Entries(pairs, interval);
    forall k | 0 < k < |entries[i..]| ensures Reads(pairs[i..][k - 1].0, entries[i..][k], pairs[i..][k]) {
      EntryReads(pairs, interval, i + k, pairs[i + k - 1].0);
    }
    if i < |pairs| {
      EntryReads(pairs, interval, i, []);
    }
    ReadChain([], entries[i..], pairs[i..]);
    SplitConcat(entries, i);
  }

  lemma SplitConcat(entries: seq<Bytes>, i: nat)
    requires i <= |entries|
    ensures |Concat(entries[..i])| <= |Concat(entries)|
    ensures Concat(entries)[|Concat(entries[..i])|..] == Concat(entries[i..])
  {
    assert entries[..i] + entries[i..] == entries;
    ConcatPlus(entries[..i], entries[i..]);
    Cut(Concat(entries[..i]), Concat(entries[i..]));
  }

  // ---------------------------------------------------------------------------------------
  // Sizes

  /** Each entry makes up for the growth of the key, and holds the value. */
  ghost predicate Carries(entries: seq<Bytes>, pairs: seq<Pair>) {
    && |entries| == |pairs|
    && forall i :: 0 <= i < |pairs| ==>
         |pairs[i].0| < |KeyBefore(pairs, i)| + |entries[i]| && |pairs[i].1| < |entries[i]|
  }

  /** So a pair is not longer than the entries it is read from. */
  lemma {:induction false} CarriesBounds(entries: seq<Bytes>, pairs: seq<Pair>, i: nat)
    requires Carries(entries, pairs) && i < |pairs|
    ensures var size := Size(entries, i + 1); i < size && |pairs[i].0| <= size && |pairs[i].1| <= size
  {
    if i > 0 { CarriesBounds(entries, pairs, i - 1); }
  }

  /** The size of the first `n` entries. */
  function Size(entries: seq<Bytes>, n: nat): nat
    requires n <= |entries|
  {
    if n == 0 then 0 else Size(entries, n - 1) + |entries[n - 1]|
  }

  lemma {:induction false} SizeIs(entries: seq<Bytes>, n: nat)
    requires n <= |entries|
    ensures Size(entries, n) == |Concat(entries[..n])|
  {
    if n > 0 {
      SizeIs(entries, n - 1);
      assert entries[..n] == entries[..n - 1] + [entries[n - 1]];
      ConcatAppend(entries[..n - 1], entries[n - 1]);
    }
  }

  lemma CarriedWithin(entries: seq<Bytes>, pairs: seq<Pair>, i: nat)
    requires Carries(entries, pairs) && i < |pairs|
    ensures var size := |Concat(entries)|; i < size && |pairs[i].0| <= size && |pairs[i].1| <= size
  {
    CarriesBounds(entries, pairs, i);
    SizeIs(entries, i + 1);
    SplitConcat(entries, i + 1);
  }

  lemma EntriesCarry(pairs: seq<Pair>, interval: nat)
    requires interval >= 1
    ensures Carries(Entries(pairs, interval), pairs)
  {
    forall i | 0 <= i < |pairs|
      ensures |pairs[i].0| < |KeyBefore(pairs, i)| + |Entries(pairs, interval)[i]|
      ensures |pairs[i].1| < |Entries(pairs, interval)[i]|
    {
      EntryAt(pairs, interval, i);
    }
  }

  lemma SmallWithin(pairs: seq<Pair>, interval: nat)
    requires interval >= 1 && |Concat(Entries(pairs, interval))| < LIMIT
    ensures Small(pairs) && |pairs| < LIMIT
  {
    var entries := Entries(pairs, interval);
    EntriesCarry(pairs, interval);
    forall i | 0 <= i < |pairs| ensures |pairs[i].0| < LIMIT && |pairs[i].1| < LIMIT {
      CarriedWithin(entries, pairs, i);
    }
    if pairs != [] { CarriedWithin(entries, pairs, |pairs| - 1); }
  }

  // ---------------------------------------------------------------------------------------
  // Restart points and the trailer

  lemma {:induction false} SinceIsRemainder(i: nat, interval: nat)
    requires interval >= 1
    ensures Since(i, interval) == i % interval
  {
    if i > 0 {
      SinceIsRemainder(i - 1, interval);
      DivideStep(i, interval);
    }
  }

  /** There is one restart point for every `interval` entries, … */
  lemma {:induction false} RestartCount(entries: seq<Bytes>, interval: nat)
    requires interval >= 1
    ensures |Restarts(entries, interval)| == if entries == [] then 1 else (|entries| - 1) / interval + 1
  {
    if |entries| > 1 {
      var n := |entries| - 1;
      RestartCount(entries[..n], interval);
      SinceIsRemainder(n, interval);
      DivideStep(n, interval);
    }
  }

  /** … and the j-th is at entry j·`interval`. */
  lemma {:induction false} RestartIs(entries: seq<Bytes>, interval: nat, j: nat)
    requires interval >= 1 && j < |Restarts(entries, interval)|
    ensures j * interval <= |entries| && Since(j * interval, interval) == 0
    ensures Restarts(entries, interval)[j] == |Concat(entries[..j * interval])|
  {
    if entries == [] || j == 0 {
      RestartZero(entries, interval);
    } else {
      var n := |entries| - 1;
      if j < |Restarts(entries[..n], interval)| {
        RestartIs(entries[..n], interval, j);
        assert entries[..n][..j * interval] == entries[..j * interval];
      } else {
        RestartCount(entries[..n], interval);
        SinceIsRemainder(n, interval);
        DivideStep(n, interval);
        assert j * interval == n;
      }
    }
  }

  lemma {:induction false} RestartZero(entries: seq<Bytes>, interval: nat)
    requires interval >= 1
    ensures Restarts(entries, interval)[0] == 0 == |Concat(entries[..0])|
  {
    if entries != [] { RestartZero(entries[..|entries| - 1], interval); }
  }

  lemma {:induction false} FixedsRoundTrip(ns: seq<nat>)
    requires forall i :: 0 <= i < |ns| ==> ns[i] < LIMIT
    ensures ReadFixeds(Fixeds(ns)) == ns
  {
    if ns != [] {
      var last := |ns| - 1;
      var front, back := Fixeds(ns[..last]), Fixed(ns[last], FIXED32);
      FixedsRoundTrip(ns[..last]);
      RadixValues();
      FixedRoundTrip(ns[last], FIXED32);
      Cut(front, back);
      assert ns[..last] + [ns[last]] == ns;
    }
  }

  lemma RestartsFit(entries: seq<Bytes>, interval: nat)
    requires interval >= 1 && |Concat(entries)| < LIMIT && |entries| < LIMIT
    ensures |Restarts(entries, interval)| < LIMIT
    ensures forall j :: 0 <= j < |Restarts(entries, interval)| ==> Restarts(entries, interval)[j] < LIMIT
  {
    RestartCount(entries, interval);
    if entries != [] {
      DivideShrinks(|entries| - 1, interval);
    }
    forall j | 0 <= j < |Restarts(entries, interval)| ensures Restarts(entries, interval)[j] < LIMIT {
      RestartIs(entries, interval, j);
      SplitConcat(entries, j * interval);
    }
  }

  lemma TrailerRoundTrip(data: Bytes, restarts: seq<nat>)
    requires |restarts| < LIMIT && forall j :: 0 <= j < |restarts| ==> restarts[j] < LIMIT
    ensures ReadBlock(data + Fixeds(restarts) + Fixed(|restarts|, FIXED32)) == Some((data, restarts))
  {
    RadixValues();
    FixedRoundTrip(|restarts|, FIXED32);
    FixedsRoundTrip(restarts);
    Cut3(data, Fixeds(restarts), Fixed(|restarts|, FIXED32));
  }

  /** A finished block under 4 GiB gives back its entries and restart points, and reading the entries
      gives exactly the pairs that were added. */
  lemma BlockRoundTrip(pairs: seq<Pair>, interval: nat)
    requires interval >= 1 && |Concat(Entries(pairs, interval))| < LIMIT
    ensures
      var entries := Entries(pairs, interval);
      && ReadBlock(Finished(entries, interval)) == Some((Concat(entries), Restarts(entries, interval)))
      && ReadEntries([], Concat(entries)) == Some(pairs)
  {
    var entries := Entries(pairs, interval);
    SmallWithin(pairs, interval);
    RestartsFit(entries, interval);
    TrailerRoundTrip(Concat(entries), Restarts(entries, interval));
    ReadSuffix(pairs, interval, 0);
    assert pairs[0..] == pairs && entries[..0] == [] && Concat(entries)[0..] == Concat(entries);
  }

  /** Reading from the j-th restart point of a block, with nothing of what precedes it, gives exactly
      the pairs from entry j·`interval` on. */
  lemma RestartRoundTrip(pairs: seq<Pair>, interval: nat, j: nat)
    requires interval >= 1 && |Concat(Entries(pairs, interval))| < LIMIT
    requires j < |Restarts(Entries(pairs, interval), interval)|
    ensures
      var entries := Entries(pairs, interval);
      var offset := Restarts(entries, interval)[j];
      && offset <= |Concat(entries)| && j * interval <= |pairs|
      && ReadEntries([], Concat(entries)[offset..]) == Some(pairs[j * interval..])
  {
    SmallWithin(pairs, interval);
    RestartIs(Entries(pairs, interval), interval, j);
    ReadSuffix(pairs, interval, j * interval);
  }

  // ---------------------------------------------------------------------------------------
  // The builder

  ghost predicate IsEntry(pairs: seq<Pair>, interval: nat, i: nat, entry: Bytes)
    requires interval >= 1 && i < |pairs|
  {
    entry == EntryBytes(Shared(pairs, interval, i), pairs[i].0, pairs[i].1)
  }

  /** `entries` are the entries of `pairs`. */
  ghost predicate Describe(entries: seq<Bytes>, pairs: seq<Pair>, interval: nat)
    requires interval >= 1
  {
    |entries| == |pairs| && forall i :: 0 <= i < |pairs| ==> IsEntry(pairs, interval, i, entries[i])
  }

  lemma DescribeAll(entries: seq<Bytes>, pairs: seq<Pair>, interval: nat)
    requires interval >= 1 && Describe(entries, pairs, interval)
    ensures entries == Entries(pairs, interval)
  {
    forall i | 0 <= i < |pairs| ensures entries[i] == Entries(pairs, interval)[i] {
      assert IsEntry(pairs, interval, i, entries[i]);
      EntryAt(pairs, interval, i);
    }
  }

  lemma DescribeOneMore(entries: seq<Bytes>, pairs: seq<Pair>, interval: nat, pair: Pair, shared: nat)
    requires interval >= 1 && Describe(entries, pairs, interval)
    requires shared == if Since(|pairs|, interval) == 0 then 0 else CommonPrefix(KeyBefore(pairs, |pairs|), pair.0)
    ensures Describe(entries + [EntryBytes(shared, pair.0, pair.1)], pairs + [pair], interval)
  {
    var longer := pairs + [pair];
    var more := entries + [EntryBytes(shared, pair.0, pair.1)];
    forall i | 0 <= i < |longer| ensures IsEntry(longer, interval, i, more[i]) {
      assert KeyBefore(longer, i) == KeyBefore(pairs, i);
      assert i < |pairs| ==> IsEntry(pairs, interval, i, entries[i]);
    }
  }

  lemma RestartsOneMore(entries: seq<Bytes>, entry: Bytes, interval: nat)
    requires interval >= 1
    ensures Concat(entries + [entry]) == Concat(entries) + entry
    ensures Restarts(entries + [entry], interval) ==
            Restarts(entries, interval) +
            if |entries| > 0 && Since(|entries|, interval) == 0 then [|Concat(entries)|] else []
  {
    ConcatAppend(entries, entry);
    assert (entries + [entry])[..|entries|] == entries;
  }

  lemma KeyRebuilt(last: Bytes, key: Bytes, shared: nat)
    requires shared <= |last| && shared <= |key| && last[..shared] == key[..shared]
    ensures last[..shared] + key[shared..] == key
  {
  }

  lemma RegroupAppend(buffer: Bytes, a: Bytes, b: Bytes, c: Bytes, d: Bytes, e: Bytes)
    ensures buffer + a + b + c + d + e == buffer + (a + (b + (c + (d + e))))
  {
    Regroup(buffer, a, b + (c + (d + e)));
    Regroup(buffer + a, b, c + (d + e));
    Regroup(buffer + a + b, c, d + e);
    Regroup(buffer + a + b + c, d, e);
  }

  class BlockBuilder {
    const interval: nat
    var buffer: Bytes
    var restarts: seq<nat>
    var counter: nat
    var finished: bool
    var lastKey: Bytes
    ghost var added: seq<Pair>
    ghost var entries: seq<Bytes>

    ghost predicate Valid()
      reads this
    {
      && interval >= 1
      && Describe(entries, added, interval)
      && lastKey == KeyBefore(added, |added|)
      && restarts == Restarts(entries, interval)
      && counter == (if entries == [] then 0 else Since(|entries| - 1, interval) + 1)
      && buffer == Concat(entries)
      && !finished
    }

    constructor (interval: nat)
      requires interval >= 1
      ensures Valid() && added == [] && this.interval == interval
    {
      this.interval := interval;
      buffer, restarts, counter, finished, lastKey, added, entries := [], [0], 0, false, [], [], [];
    }

    /** The loop that compares the key with the last one. */
    method SharedWithLast(key: Bytes) returns (shared: nat)
      ensures shared == CommonPrefix(lastKey, key)
    {
      shared := 0;
      var minLength := if |lastKey| <= |key| then |lastKey| else |key|;
      assert lastKey[0..] == lastKey && key[0..] == key;
      while shared < minLength && lastKey[shared] == key[shared]
        invariant shared <= minLength
        invariant CommonPrefix(lastKey, key) == shared + CommonPrefix(lastKey[shared..], key[shared..])
      {
        assert lastKey[shared..][1..] == lastKey[shared + 1..] && key[shared..][1..] == key[shared + 1..];
        shared := shared + 1;
      }
    }

    /** How much of the key to leave out; a restart point when the interval is used up. */
    method StartEntry(key: Bytes) returns (shared: nat)
      requires interval >= 1 && counter == if entries == [] then 0 else Since(|entries| - 1, interval) + 1
      requires entries == [] ==> lastKey == []
      modifies `restarts, `counter
      ensures shared == if Since(|entries|, interval) == 0 then 0 else CommonPrefix(lastKey, key)
      ensures restarts == old(restarts) + if |entries| > 0 && Since(|entries|, interval) == 0 then [|buffer|] else []
      ensures counter == Since(|entries|, interval)
    {
      shared := 0;
      if counter < interval {
        shared := SharedWithLast(key);
      } else {
        restarts := restarts + [|buffer|];
        counter := 0;
      }
    }

    /** Appends the sizes, the unshared part of the key, and the value. */
    method AppendEntry(shared: nat, key: Bytes, value: Bytes) returns (ghost entry: Bytes)
      requires interval >= 1 && lastKey == KeyBefore(added, |added|) && Describe(entries, added, interval)
      requires shared == if Since(|added|, interval) == 0 then 0 else CommonPrefix(lastKey, key)
      modifies `buffer
      ensures buffer == old(buffer) + entry
      ensures Describe(entries + [entry], added + [(key, value)], interval)
    {
      DescribeOneMore(entries, added, interval, (key, value), shared);
      entry := EntryBytes(shared, key, value);
      var nonShared := |key| - shared;
      buffer := buffer + Varint(shared % LIMIT);
      buffer := buffer + Varint(nonShared % LIMIT);
      buffer := buffer + Varint(|value| % LIMIT);
      buffer := buffer + key[shared..];
      buffer := buffer + value;
      RegroupAppend(old(buffer), Varint(shared % LIMIT), Varint(nonShared % LIMIT), Varint(|value| % LIMIT),
                    key[shared..], value);
    }

    /** Writes the next entry and the bookkeeping that goes with it. */
    method AddEntry(key: Bytes, value: Bytes) returns (shared: nat)
      requires Valid()
      modifies `restarts, `counter, `buffer, `entries
      ensures Describe(entries, added + [(key, value)], interval)
      ensures restarts == Restarts(entries, interval) && buffer == Concat(entries)
      ensures counter == Since(|added|, interval)
      ensures shared <= |lastKey| && shared <= |key| && lastKey[..shared] == key[..shared]
    {
      shared := StartEntry(key);
      ghost var entry := AppendEntry(shared, key, value);
      RestartsOneMore(entries, entry, interval);
      entries := entries + [entry];
    }

    method Add(key: Bytes, value: Bytes)
      requires Valid()
      modifies this
      ensures Valid() && added == old(added) + [(key, value)]
    {
      var shared := AddEntry(key, value);
      KeyRebuilt(lastKey, key, shared);
      lastKey := lastKey[..shared] + key[shared..];
      counter := counter + 1;
      added := added + [(key, value)];
    }

    method Finish() returns (block: Bytes)
      requires Valid()
      modifies `buffer, `finished
      ensures finished && buffer == block == Finished(Entries(added, interval), interval)
    {
      DescribeAll(entries, added, interval);
      var i := 0;
      while i < |restarts|
        modifies `buffer
        invariant i <= |restarts| && buffer == old(buffer) + Fixeds(restarts[..i])
      {
        assert restarts[..i + 1][..i] == restarts[..i];
        Regroup(old(buffer), Fixeds(restarts[..i]), Fixed(restarts[i], FIXED32));
        buffer := buffer + Fixed(restarts[i], FIXED32);
        i := i + 1;
      }
      assert restarts[..i] == restarts;
      buffer := buffer + Fixed(|restarts|, FIXED32);
      finished := true;
      block := buffer;
    }
  }
}
