/** The memtable: entries encoded into byte buffers, ordered by the internal key inside the bytes, and
    looked up by an encoded key. */
module Memtable {
  import opened Coding
  import opened Keys
  import opened Lsm
  import opened Batches

  const LIMIT32: nat := 0x1_0000_0000
  const TAG_LIMIT: nat := 256 * (MAX_SEQUENCE + 1)

  /** The size of the array inside a lookup key. */
  const SPACE: nat := 200

  function TypeByte(kind: Kind): Byte {
    if kind == Kind.Value then TYPE_VALUE else TYPE_DELETION
  }

  /** The sequence number in the upper seven bytes, the type in the lowest. */
  function Tag(sequence: nat, kind: Kind): nat {
    sequence * 256 + TypeByte(kind)
  }

  function InternalKey(key: Key, tag: nat): Bytes {
    key + Fixed(tag, FIXED64)
  }

  function MemKey(key: Key, tag: nat): Bytes {
    Varint(|key| + 8) + InternalKey(key, tag)
  }

  function MemEntry(e: Entry): Bytes {
    MemKey(e.key, Tag(e.sequence, e.kind)) + (Varint(|e.value|) + e.value)
  }

  /** Lengths that fit 32 bits and a sequence number that fits 56. */
  predicate FitsKey(key: Key, sequence: nat) {
    |key| + 8 < LIMIT32 && sequence <= MAX_SEQUENCE
  }

  predicate Encodable(e: Entry) {
    FitsKey(e.key, e.sequence) && |e.value| < LIMIT32
  }

  // ---------------------------------------------------------------------------------------
  // Decoding

  function UserKey(internal: Bytes): Key {
    if |internal| < 8 then [] else internal[..|internal| - 8]
  }

  function TagOf(internal: Bytes): nat {
    if |internal| < 8 then 0 else Coding.Value(internal[|internal| - 8..])
  }

  /** The entry that a buffer holds. */
  function ReadMemEntry(bs: Bytes): Option<Entry> {
    match ReadSlice(bs)
    case None => None
    case Some((internal, rest)) =>
      match ReadSlice(rest)
      case None => None
      case Some((value, _)) =>
        var tag := TagOf(internal);
        Some(Entry(UserKey(internal), tag / 256, if tag % 256 == TYPE_VALUE then Kind.Value else Deletion, value))
  }

  lemma InternalParts(key: Key, tag: nat)
    requires tag < TAG_LIMIT
    ensures UserKey(InternalKey(key, tag)) == key && TagOf(InternalKey(key, tag)) == tag
  {
    Cut(key, Fixed(tag, FIXED64));
    RadixValues();
    FixedRoundTrip(tag, FIXED64);
  }

  lemma KeyReads(key: Key, tag: nat, rest: Bytes)
    requires |key| + 8 < LIMIT32
    ensures ReadSlice(MemKey(key, tag) + rest) == Some((InternalKey(key, tag), rest))
  {
    assert MemKey(key, tag) == Slice(InternalKey(key, tag));
    SliceRoundTrip(InternalKey(key, tag), rest);
  }

  lemma TagParts(sequence: nat, kind: Kind)
    ensures Tag(sequence, kind) / 256 == sequence && Tag(sequence, kind) % 256 == TypeByte(kind)
    ensures sequence <= MAX_SEQUENCE ==> Tag(sequence, kind) < TAG_LIMIT
  {
  }

  /** Decoding an encoded entry restores its key, sequence number, type and value. */
  lemma EntryRoundTrip(e: Entry)
    requires Encodable(e)
    ensures ReadMemEntry(MemEntry(e)) == Some(e)
  {
    var tag := Tag(e.sequence, e.kind);
    TagParts(e.sequence, e.kind);
    KeyReads(e.key, tag, Varint(|e.value|) + e.value);
    InternalParts(e.key, tag);
    assert Slice(e.value) + [] == Varint(|e.value|) + e.value;
    SliceRoundTrip(e.value, []);
  }

  // ---------------------------------------------------------------------------------------
  // The order on encoded keys

  function UserCompare(a: Key, b: Key): int {
    if a == b then 0 else if Less(a, b) then -1 else 1
  }

  /** InternalKeyComparator: user key ascending, then tag descending. */
  function InternalCompare(a: Bytes, b: Bytes): int {
    var r := UserCompare(UserKey(a), UserKey(b));
    if r == 0 then
      if TagOf(a) > TagOf(b) then -1 else if TagOf(a) < TagOf(b) then 1 else r
    else r
  }

  /** MemTable::KeyComparator: compares the length-prefixed keys at the start of two buffers. */
  function MemCompare(a: Bytes, b: Bytes): int {
    match (ReadSlice(a), ReadSlice(b))
    case (Some((x, _)), Some((y, _))) => InternalCompare(x, y)
    case _ => 0
  }

  /** What comparing two encoded keys decides, whatever follows them in their buffers. */
  lemma CompareKeys(a: Key, s: nat, b: Key, t: nat, restA: Bytes, restB: Bytes)
    requires |a| + 8 < LIMIT32 && |b| + 8 < LIMIT32 && s < TAG_LIMIT && t < TAG_LIMIT
    ensures
      var r := MemCompare(MemKey(a, s) + restA, MemKey(b, t) + restB);
      && (r < 0 <==> Less(a, b) || (a == b && s > t))
      && (r == 0 <==> a == b && s == t)
  {
    KeyReads(a, s, restA);
    KeyReads(b, t, restB);
    InternalParts(a, s);
    InternalParts(b, t);
    LessIrreflexive(a);
  }

  /** The tie-break by type. */
  predicate ValueFirst(a: Entry, b: Entry) {
    a.key == b.key && a.sequence == b.sequence && a.kind == Kind.Value && b.kind == Deletion
  }

  /** The order on the bytes is the order on entries: key ascending, sequence descending; and only
      entries with the same key, sequence number and type compare equal. */
  lemma CompareIsBefore(a: Entry, b: Entry)
    requires Encodable(a) && Encodable(b)
    ensures
      var r := MemCompare(MemEntry(a), MemEntry(b));
      && (r < 0 <==> Before(a, b) || ValueFirst(a, b))
      && (r == 0 <==> a.key == b.key && a.sequence == b.sequence && a.kind == b.kind)
  {
    var s, t := Tag(a.sequence, a.kind), Tag(b.sequence, b.kind);
    TagParts(a.sequence, a.kind);
    TagParts(b.sequence, b.kind);
    CompareKeys(a.key, s, b.key, t, Varint(|a.value|) + a.value, Varint(|b.value|) + b.value);
  }

  /** On entries that differ in key or sequence number the comparator is a strict total order. */
  lemma CompareIsTotalOrder(a: Entry, b: Entry, c: Entry)
    requires Encodable(a) && Encodable(b) && Encodable(c)
    ensures MemCompare(MemEntry(a), MemEntry(a)) == 0
    ensures MemCompare(MemEntry(a), MemEntry(b)) < 0 <==> MemCompare(MemEntry(b), MemEntry(a)) > 0
    ensures MemCompare(MemEntry(a), MemEntry(b)) < 0 && MemCompare(MemEntry(b), MemEntry(c)) < 0 ==>
      MemCompare(MemEntry(a), MemEntry(c)) < 0
    ensures a.key != b.key || a.sequence != b.sequence ==>
      MemCompare(MemEntry(a), MemEntry(b)) < 0 || MemCompare(MemEntry(b), MemEntry(a)) < 0
  {
    CompareIsBefore(a, a);
    CompareIsBefore(a, b);
    CompareIsBefore(b, a);
    CompareIsBefore(b, c);
    CompareIsBefore(a, c);
    LessIrreflexive(a.key);
    LessTotal(a.key, b.key);
    if Less(a.key, b.key) && Less(b.key, a.key) { LessTransitive(a.key, b.key, a.key); }
    if Less(a.key, b.key) && Less(b.key, c.key) { LessTransitive(a.key, b.key, c.key); }
  }

  // ---------------------------------------------------------------------------------------
  // Writing through a moving pointer

  method PutBytes(buf: array<Byte>, p: nat, bs: Bytes) returns (q: nat)
    requires p + |bs| <= buf.Length
    modifies buf
    ensures q == p + |bs| && buf[..q] == old(buf[..p]) + bs
  {
    var i := 0;
    while i < |bs|
      invariant i <= |bs| && buf[..p + i] == old(buf[..p]) + bs[..i]
    {
      buf[p + i] := bs[i];
      i := i + 1;
    }
    assert bs[..i] == bs;
    q := p + |bs|;
  }

  method PutVarint(buf: array<Byte>, p: nat, n: nat) returns (q: nat)
    requires p + |Varint(n)| <= buf.Length
    modifies buf
    ensures q == p + |Varint(n)| && buf[..q] == old(buf[..p]) + Varint(n)
  {
    q := p;
    var m := n;
    while m >= 128
      invariant p <= q && q + |Varint(m)| == p + |Varint(n)|
      invariant buf[..q] + Varint(m) == old(buf[..p]) + Varint(n)
    {
      ghost var before := buf[..q];
      buf[q] := 128 + m % 128;
      assert buf[..q + 1] == before + [128 + m % 128];
      Regroup(before, [128 + m % 128], Varint(m / 128));
      q := q + 1;
      m := m / 128;
    }
    ghost var before := buf[..q];
    buf[q] := m;
    assert buf[..q + 1] == before + [m];
    q := q + 1;
  }

  /** MemTable::Add up to the insertion: the buffer is filled exactly. */
  method EncodeEntry(e: Entry) returns (buf: array<Byte>)
    requires Encodable(e)
    ensures fresh(buf) && buf[..] == MemEntry(e)
    ensures buf.Length == |Varint(|e.key| + 8)| + (|e.key| + 8) + |Varint(|e.value|)| + |e.value|
  {
    var internalKeySize := |e.key| + 8;
    var encodedLen := |Varint(internalKeySize)| + internalKeySize + |Varint(|e.value|)| + |e.value|;
    buf := new Byte[encodedLen];
    var p := PutVarint(buf, 0, internalKeySize);
    p := PutBytes(buf, p, e.key);
    p := PutBytes(buf, p, Fixed(Tag(e.sequence, e.kind), FIXED64));
    p := PutVarint(buf, p, |e.value|);
    p := PutBytes(buf, p, e.value);
    assert p == encodedLen;
    RegroupFive(Varint(internalKeySize), e.key, Fixed(Tag(e.sequence, e.kind), FIXED64), Varint(|e.value|), e.value);
    assert buf[..p] == buf[..];
  }

  lemma RegroupFive(a: Bytes, b: Bytes, c: Bytes, d: Bytes, e: Bytes)
    ensures [] + a + b + c + d + e == (a + (b + c)) + (d + e)
  {
    assert [] + a == a;
    Regroup(a, b, c);
    Regroup(a + b + c, d, e);
  }

  class LookupKey {
    var buf: array<Byte>
    var kstart: nat
    var end: nat
    ghost var key: Key
    ghost var snapshot: nat

    ghost predicate Valid()
      reads this, buf
    {
      && FitsKey(key, snapshot)
      && 8 <= end && kstart <= end - 8 && end <= buf.Length
      && buf[..end] == MemKey(key, Tag(snapshot, Kind.Value))
      && buf[kstart..end - 8] == key
    }

    /** The estimate of thirteen bytes besides the key is enough. */
    constructor (userKey: Key, s: nat)
      requires FitsKey(userKey, s)
      ensures Valid() && key == userKey && snapshot == s && fresh(buf)
      ensures buf.Length == (if |userKey| + 13 <= SPACE then SPACE else |userKey| + 13)
    {
      var needed := |userKey| + 13;
      var dst := new Byte[if needed <= SPACE then SPACE else needed];
      var k, p := EncodeKey(dst, userKey, s);
      buf, kstart, end := dst, k, p;
      key, snapshot := userKey, s;
    }
  }

  method EncodeKey(dst: array<Byte>, userKey: Key, s: nat) returns (kstart: nat, end: nat)
    requires FitsKey(userKey, s) && dst.Length >= |userKey| + 13
    modifies dst
    ensures 8 <= end && kstart <= end - 8 && end <= dst.Length
    ensures dst[..end] == MemKey(userKey, Tag(s, Kind.Value)) && dst[kstart..end - 8] == userKey
  {
    VarintAtMostFive(|userKey| + 8);
    kstart := PutVarint(dst, 0, |userKey| + 8);
    end := PutBytes(dst, kstart, userKey);
    end := PutBytes(dst, end, Fixed(Tag(s, Kind.Value), FIXED64));
    KeyParts(Varint(|userKey| + 8), userKey, Fixed(Tag(s, Kind.Value), FIXED64), dst[..end]);
    assert dst[kstart..end - 8] == dst[..end][kstart..end - 8];
  }

  lemma KeyParts(a: Bytes, b: Bytes, c: Bytes, all: Bytes)
    requires all == [] + a + b + c
    ensures all == a + (b + c) && all[|a|..|a| + |b|] == b
  {
    assert [] + a == a;
    Regroup(a, b, c);
    Cut3(a, b, c);
  }

  // ---------------------------------------------------------------------------------------
  // The table

  /** Where entries change hands: the newest version after an insertion into a sorted sequence. */
  lemma NewestAfterInsert(es: seq<Entry>, e: Entry, i: nat, k: Key, snapshot: nat)
    requires i <= |es|
    requires forall x :: x in es && x.key == e.key ==> x.sequence != e.sequence
    requires Sorted(es[..i] + [e] + es[i..])
    ensures
      var before := Newest(es, k, snapshot);
      Newest(es[..i] + [e] + es[i..], k, snapshot) ==
        if Visible(e, k, snapshot) && (before.None? || before.value.sequence < e.sequence) then Some(e) else before
  {
    var all := es[..i] + [e] + es[i..];
    var before, after := Newest(es, k, snapshot), Newest(all, k, snapshot);
    assert all[i] == e && e in all;
    forall x ensures x in all <==> x in es || x == e {
      InsertMembers(es, e, i, x);
    }
    if after.Some? && before.Some? && after.value != e {
      SameVersion(all, after.value, before.value);
    }
  }

  lemma InsertMembers(es: seq<Entry>, e: Entry, i: nat, x: Entry)
    requires i <= |es|
    ensures x in es[..i] + [e] + es[i..] <==> x in es || x == e
  {
    assert es == es[..i] + es[i..];
  }

  datatype Found = Missing | Deleted | Present(value: Bytes)

  /** What a lookup must answer. */
  function Answer(newest: Option<Entry>): Found {
    match newest
    case None => Missing
    case Some(e) => if e.kind == Kind.Value then Present(e.value) else Deleted
  }

  /** The entry sorts strictly before the lookup key. */
  predicate Ahead(e: Entry, k: Key, snapshot: nat) {
    Less(e.key, k) || (e.key == k && e.sequence > snapshot)
  }

  lemma CompareWithLookup(e: Entry, k: Key, snapshot: nat)
    requires Encodable(e) && FitsKey(k, snapshot)
    ensures MemCompare(MemEntry(e), MemKey(k, Tag(snapshot, Kind.Value))) < 0 <==> Ahead(e, k, snapshot)
  {
    TagParts(e.sequence, e.kind);
    TagParts(snapshot, Kind.Value);
    assert MemKey(k, Tag(snapshot, Kind.Value)) + [] == MemKey(k, Tag(snapshot, Kind.Value));
    CompareKeys(e.key, Tag(e.sequence, e.kind), k, Tag(snapshot, Kind.Value), Varint(|e.value|) + e.value, []);
  }

  /** The first entry that is not ahead of the lookup key is the newest visible one, if it has the key;
      otherwise no entry is visible. */
  lemma SeekDecides(es: seq<Entry>, k: Key, snapshot: nat, i: nat)
    requires Sorted(es) && i <= |es|
    requires forall j :: 0 <= j < i ==> Ahead(es[j], k, snapshot)
    requires i < |es| ==> !Ahead(es[i], k, snapshot)
    ensures Newest(es, k, snapshot) == if i < |es| && es[i].key == k then Some(es[i]) else None
  {
    LessIrreflexive(k);
    if i < |es| && es[i].key == k {
      assert Decides(es, snapshot, i);
      DecidesIsNewest(es, snapshot, i);
    } else {
      forall m | 0 <= m < |es| ensures !Visible(es[m], k, snapshot) {
        assert m < i ==> Ahead(es[m], k, snapshot);
        if i < m { NotBehind(es[i], es[m], k); }
      }
    }
  }

  lemma NotBehind(a: Entry, b: Entry, k: Key)
    requires Before(a, b) && a.key != k && !Less(a.key, k)
    ensures b.key != k
  {
  }

  lemma InsertSorted(es: seq<Entry>, e: Entry, i: nat)
    requires Sorted(es) && i <= |es|
    requires forall j :: 0 <= j < i ==> Before(es[j], e)
    requires i < |es| ==> Before(e, es[i])
    ensures Sorted(es[..i] + [e] + es[i..])
  {
    var all := es[..i] + [e] + es[i..];
    forall m | i < m < |es| ensures Before(e, es[m]) {
      assert Before(es[i], es[m]);
      if Less(e.key, es[i].key) && Less(es[i].key, es[m].key) { LessTransitive(e.key, es[i].key, es[m].key); }
    }
    forall x, y | 0 <= x < y < |all| ensures Before(all[x], all[y]) {
      assert all[x] == if x < i then es[x] else if x == i then e else es[x - 1];
      assert all[y] == if y < i then es[y] else if y == i then e else es[y - 1];
    }
  }

  /** The entry an operation of a batch becomes. */
  function EntryOf(sequence: nat, op: Operation): Entry {
    match op
    case Put(key, value) => Entry(key, sequence, Kind.Value, value)
    case Delete(key) => Entry(key, sequence, Deletion, [])
  }

  predicate AllEncodable(ops: seq<Operation>, base: nat) {
    forall i :: 0 <= i < |ops| ==> Encodable(EntryOf(base + i, ops[i]))
  }

  ghost predicate IsEncoded(node: Bytes, e: Entry) {
    Encodable(e) && node == MemEntry(e)
  }

  /** The nodes of the table are the encoded entries. */
  ghost predicate Encodes(table: seq<Bytes>, entries: seq<Entry>) {
    && |table| == |entries|
    && forall i {:trigger IsEncoded(table[i], entries[i])} :: 0 <= i < |entries| ==>
         IsEncoded(table[i], entries[i])
  }

  lemma EncodesInsert(table: seq<Bytes>, entries: seq<Entry>, i: nat, node: Bytes, e: Entry)
    requires Encodes(table, entries) && i <= |entries| && IsEncoded(node, e)
    ensures Encodes(table[..i] + [node] + table[i..], entries[..i] + [e] + entries[i..])
  {
    var table', entries' := table[..i] + [node] + table[i..], entries[..i] + [e] + entries[i..];
    forall k | 0 <= k < |entries'| ensures IsEncoded(table'[k], entries'[k]) {
      assert k < i ==> IsEncoded(table[k], entries[k]);
      assert k > i ==> IsEncoded(table[k - 1], entries[k - 1]);
    }
  }

  ghost predicate Below(es: seq<Entry>, sequence: nat) {
    forall e :: e in es ==> e.sequence < sequence
  }

  class MemTable {
    var table: seq<Bytes>
    ghost var entries: seq<Entry>

    ghost predicate Valid()
      reads this
    {
      Sorted(entries) && Encodes(table, entries)
    }

    constructor ()
      ensures Valid() && entries == []
    {
      table, entries := [], [];
    }

    /** The first node that is not less than the key. */
    method Seek(key: Bytes) returns (i: nat)
      ensures i <= |table| && (i < |table| ==> MemCompare(table[i], key) >= 0)
      ensures forall j :: 0 <= j < i ==> MemCompare(table[j], key) < 0
    {
      i := 0;
      while i < |table| && MemCompare(table[i], key) < 0
        invariant i <= |table| && forall j :: 0 <= j < i ==> MemCompare(table[j], key) < 0
      {
        i := i + 1;
      }
    }

    /** No two entries have the same key and sequence number. */
    method Add(e: Entry) returns (ghost i: nat)
      requires Valid() && Encodable(e)
      requires forall x :: x in entries && x.key == e.key ==> x.sequence != e.sequence
      modifies this
      ensures Valid() && i <= |old(entries)| && entries == old(entries)[..i] + [e] + old(entries)[i..]
    {
      var buf := EncodeEntry(e);
      var at := Seek(buf[..]);
      i := at;
      forall j | 0 <= j <= at && j < |entries|
        ensures if j < at then Before(entries[j], e) else Before(e, entries[j])
      {
        assert IsEncoded(table[j], entries[j]);
        CompareIsBefore(entries[j], e);
        LessTotal(e.key, entries[j].key);
      }
      InsertSorted(entries, e, at);
      EncodesInsert(table, entries, at, buf[..], e);
      table := table[..at] + [buf[..]] + table[at..];
      entries := entries[..i] + [e] + entries[i..];
    }

    /** The newest version of the key at the snapshot, as it is or as a deletion; nothing if there is none. */
    method Get(lookup: LookupKey) returns (found: Found)
      requires Valid() && lookup.Valid()
      ensures found == Answer(Newest(entries, lookup.key, lookup.snapshot))
    {
      var memkey := lookup.buf[..lookup.end];
      var userKey := lookup.buf[lookup.kstart..lookup.end - 8];
      var i := Seek(memkey);
      forall j | 0 <= j <= i && j < |entries|
        ensures Ahead(entries[j], lookup.key, lookup.snapshot) <==> j < i
      {
        assert IsEncoded(table[j], entries[j]);
        CompareWithLookup(entries[j], lookup.key, lookup.snapshot);
      }
      SeekDecides(entries, lookup.key, lookup.snapshot, i);
      found := Missing;
      if i < |table| {
        assert IsEncoded(table[i], entries[i]);
        found := Decode(table[i], userKey, entries[i]);
      }
    }

    /** The node's key, type and value, read from its bytes. */
    method Decode(node: Bytes, userKey: Key, ghost e: Entry) returns (found: Found)
      requires Encodable(e) && node == MemEntry(e)
      ensures found == if e.key == userKey then Answer(Some(e)) else Missing
    {
      var tag := Tag(e.sequence, e.kind);
      TagParts(e.sequence, e.kind);
      KeyReads(e.key, tag, Varint(|e.value|) + e.value);
      InternalParts(e.key, tag);
      assert Slice(e.value) + [] == Varint(|e.value|) + e.value;
      SliceRoundTrip(e.value, []);
      var (internal, rest) := ReadSlice(node).value;
      if UserCompare(UserKey(internal), userKey) != 0 { return Missing; }
      if TagOf(internal) % 256 == TYPE_VALUE {
        return Present(ReadSlice(rest).value.0);
      }
      return Deleted;
    }

    /** MemTableInserter over a batch: the operations get consecutive sequence numbers, above all those
        in the table. */
    method InsertInto(ops: seq<Operation>, base: nat)
      requires Valid() && AllEncodable(ops, base) && Below(entries, base)
      modifies this
      ensures Valid() && Loaded(old(entries), entries, ops, base)
    {
      NothingLoaded(entries, base);
      var i := 0;
      while i < |ops|
        invariant i <= |ops| && Valid() && Loaded(old(entries), entries, ops[..i], base)
      {
        ghost var before := entries;
        InsertOne(ops[i], base + i);
        LoadedNext(old(entries), before, entries, ops, i, base);
        i := i + 1;
      }
      assert ops[..i] == ops;
    }

    /** One call of the inserter. */
    method InsertOne(op: Operation, sequence: nat)
      requires Valid() && Encodable(EntryOf(sequence, op)) && Below(entries, sequence)
      modifies this
      ensures Valid() && Loaded(old(entries), entries, [op], sequence)
    {
      var e := EntryOf(sequence, op);
      ghost var at := Add(e);
      LoadedOne(old(entries), at, op, sequence);
    }

    /** InsertInto as it is called, on the bytes of a batch. */
    method InsertBatch(rep: Bytes)
      requires Valid() && Parsed(rep).Some?
      requires AllEncodable(Parsed(rep).value.1, Parsed(rep).value.0) && Below(entries, Parsed(rep).value.0)
      modifies this
      ensures Valid() && Loaded(old(entries), entries, Parsed(rep).value.1, Parsed(rep).value.0)
    {
      var (base, ops) := Parsed(rep).value;
      InsertInto(ops, base);
    }
  }

  // ---------------------------------------------------------------------------------------
  // What a batch does to reads

  /** The newest version of `k` after a batch: the last of its operations on `k` that the snapshot sees,
      or else what there was. */
  function WithBatch(before: Option<Entry>, ops: seq<Operation>, base: nat, k: Key, snapshot: nat): Option<Entry> {
    if ops == [] then before
    else
      var n := |ops| - 1;
      if ops[n].key == k && base + n <= snapshot then Some(EntryOf(base + n, ops[n]))
      else WithBatch(before, ops[..n], base, k, snapshot)
  }

  /** Every read at every snapshot finds what there was before, with the batch on top. */
  ghost predicate ReadsWith(before: seq<Entry>, after: seq<Entry>, ops: seq<Operation>, base: nat) {
    forall k, snapshot :: ReadWith(before, after, ops, base, k, snapshot)
  }

  ghost predicate ReadWith(before: seq<Entry>, after: seq<Entry>, ops: seq<Operation>, base: nat,
                           k: Key, snapshot: nat)
  {
    Newest(after, k, snapshot) == WithBatch(Newest(before, k, snapshot), ops, base, k, snapshot)
  }

  /** The entries that operations become, numbered from `base`. */
  function EntriesOf(ops: seq<Operation>, base: nat): seq<Entry> {
    if ops == [] then []
    else EntriesOf(ops[..|ops| - 1], base) + [EntryOf(base + |ops| - 1, ops[|ops| - 1])]
  }

  /** A table has taken in a batch: it holds exactly what it held and the entries of the batch, all numbered
      below the next free sequence number, and reads find the batch on top. */
  ghost predicate Loaded(before: seq<Entry>, after: seq<Entry>, ops: seq<Operation>, base: nat) {
    && Below(after, base + |ops|)
    && Gains(before, after, EntriesOf(ops, base))
    && ReadsWith(before, after, ops, base)
  }

  ghost predicate Gains(before: seq<Entry>, after: seq<Entry>, added: seq<Entry>) {
    forall e :: e in after <==> e in before || e in added
  }

  lemma NothingLoaded(es: seq<Entry>, base: nat)
    requires Below(es, base)
    ensures Loaded(es, es, [], base)
  {
  }

  lemma LoadedOne(es: seq<Entry>, at: nat, op: Operation, sequence: nat)
    requires at <= |es| && Below(es, sequence) && Sorted(es[..at] + [EntryOf(sequence, op)] + es[at..])
    ensures Loaded(es, es[..at] + [EntryOf(sequence, op)] + es[at..], [op], sequence)
  {
    var e := EntryOf(sequence, op);
    var after := es[..at] + [e] + es[at..];
    assert [op][..0] == [] && EntriesOf([op], sequence) == [e];
    forall x ensures x in after <==> x in es || x in EntriesOf([op], sequence) {
      InsertMembers(es, e, at, x);
    }
    forall k, snapshot ensures ReadWith(es, after, [op], sequence, k, snapshot) {
      NewestAfterInsert(es, e, at, k, snapshot);
    }
  }

  lemma LoadedNext(before: seq<Entry>, mid: seq<Entry>, after: seq<Entry>, ops: seq<Operation>, i: nat, base: nat)
    requires i < |ops| && Loaded(before, mid, ops[..i], base) && Loaded(mid, after, [ops[i]], base + i)
    ensures Loaded(before, after, ops[..i + 1], base)
  {
    assert ops[..i + 1] == ops[..i] + [ops[i]];
    ReadsWithOneMore(before, mid, after, ops[..i], ops[i], base);
    EntriesOneMore(ops[..i], ops[i], base);
    MembersOneMore(before, mid, after, EntriesOf(ops[..i], base), EntriesOf([ops[i]], base + i));
  }

  lemma EntriesOneMore(ops: seq<Operation>, op: Operation, base: nat)
    ensures EntriesOf(ops + [op], base) == EntriesOf(ops, base) + EntriesOf([op], base + |ops|)
  {
    assert (ops + [op])[..|ops|] == ops && [op][..0] == [];
  }

  lemma MembersOneMore(before: seq<Entry>, mid: seq<Entry>, after: seq<Entry>, a: seq<Entry>, b: seq<Entry>)
    requires Gains(before, mid, a) && Gains(mid, after, b)
    ensures Gains(before, after, a + b)
  {
  }

  lemma ReadsWithOneMore(before: seq<Entry>, mid: seq<Entry>, after: seq<Entry>,
                         ops: seq<Operation>, op: Operation, base: nat)
    requires ReadsWith(before, mid, ops, base) && ReadsWith(mid, after, [op], base + |ops|)
    ensures ReadsWith(before, after, ops + [op], base)
  {
    forall k, snapshot ensures ReadWith(before, after, ops + [op], base, k, snapshot) {
      WithOneMore(Newest(before, k, snapshot), ops, op, base, k, snapshot);
      assert ReadWith(before, mid, ops, base, k, snapshot) && ReadWith(mid, after, [op], base + |ops|, k, snapshot);
    }
  }

  lemma WithOneMore(before: Option<Entry>, ops: seq<Operation>, op: Operation, base: nat, k: Key, snapshot: nat)
    ensures WithBatch(before, ops + [op], base, k, snapshot)
         == WithBatch(WithBatch(before, ops, base, k, snapshot), [op], base + |ops|, k, snapshot)
  {
    assert (ops + [op])[..|ops|] == ops && [op][..0] == [];
  }

  /** A snapshot from before the batch sees nothing of it. */
  lemma {:induction false} BatchUnseenBefore(before: Option<Entry>, ops: seq<Operation>, base: nat,
                                             k: Key, snapshot: nat)
    requires snapshot < base
    ensures WithBatch(before, ops, base, k, snapshot) == before
  {
    if ops != [] { BatchUnseenBefore(before, ops[..|ops| - 1], base, k, snapshot); }
  }

  function ApplyOne(found: Found, op: Operation, k: Key): Found {
    if op.key != k then found else if op.Put? then Present(op.value) else Deleted
  }

  /** Applying operations one after the other to what a reader finds. */
  function Applied(found: Found, ops: seq<Operation>, k: Key): Found
    decreases ops
  {
    if ops == [] then found
    else Applied(ApplyOne(found, ops[0], k), ops[1..], k)
  }

  /** A snapshot from after the batch sees all of it, in order. */
  lemma {:induction false} BatchSeenAfter(before: Option<Entry>, ops: seq<Operation>, base: nat, k: Key, snapshot: nat)
    requires base + |ops| <= snapshot + 1
    ensures Answer(WithBatch(before, ops, base, k, snapshot)) == Applied(Answer(before), ops, k)
  {
    if ops != [] {
      var n := |ops| - 1;
      BatchSeenAfter(before, ops[..n], base, k, snapshot);
      assert ops == ops[..n] + [ops[n]];
      AppliedPlus(Answer(before), ops[..n], ops[n], k);
    }
  }

  lemma {:induction false} AppliedPlus(found: Found, ops: seq<Operation>, op: Operation, k: Key)
    ensures Applied(found, ops + [op], k) == ApplyOne(Applied(found, ops, k), op, k)
    decreases ops
  {
    if ops == [] {
      assert [] + [op] == [op];
    } else {
      assert (ops + [op])[1..] == ops[1..] + [op];
      AppliedPlus(ApplyOne(found, ops[0], k), ops[1..], op, k);
    }
  }
}
