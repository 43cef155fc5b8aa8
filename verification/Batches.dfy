/** The byte form of a write batch: an eight-byte sequence number, a four-byte count, and one record for
    each operation. */
module Batches {
  import opened Coding

  datatype Operation = Put(key: Bytes, value: Bytes) | Delete(key: Bytes)

  const TYPE_DELETION: Byte := 0
  const TYPE_VALUE: Byte := 1
  const HEADER: nat := 12

  /** A length as a 32-bit variable-length integer, then the bytes. */
  function Slice(bs: Bytes): Bytes {
    Varint(|bs| % 0x1_0000_0000) + bs
  }

  function Record(op: Operation): Bytes {
    match op
    case Put(key, value) => [TYPE_VALUE] + (Slice(key) + Slice(value))
    case Delete(key) => [TYPE_DELETION] + Slice(key)
  }

  function Records(ops: seq<Operation>): Bytes {
    if ops == [] then [] else Record(ops[0]) + Records(ops[1..])
  }

  /** Reading a slice, a record, and all records back. */
  function ReadSlice(bs: Bytes): (r: Option<(Bytes, Bytes)>)
    ensures r.Some? ==> |r.value.1| < |bs|
  {
    match ReadVarint(bs)
    case None => None
    case Some((n, rest)) =>
      ReadVarintShrinks(bs);
      if n <= |rest| then Some((rest[..n], rest[n..])) else None
  }

  lemma {:induction false} ReadVarintShrinks(bs: Bytes)
    ensures ReadVarint(bs).Some? ==> |ReadVarint(bs).value.1| < |bs|
  {
    if bs != [] && bs[0] >= 128 { ReadVarintShrinks(bs[1..]); }
  }

  function ReadRecord(bs: Bytes): (r: Option<(Operation, Bytes)>)
    ensures r.Some? ==> |r.value.1| < |bs|
  {
    if bs == [] then None
    else match ReadSlice(bs[1..])
      case None => None
      case Some((key, rest)) =>
        if bs[0] == TYPE_DELETION then Some((Delete(key), rest))
        else if bs[0] == TYPE_VALUE then
          match ReadSlice(rest)
          case None => None
          case Some((value, rest')) => Some((Put(key, value), rest'))
        else None
  }

  function ReadRecords(bs: Bytes): Option<seq<Operation>>
    decreases |bs|
  {
    if bs == [] then Some([])
    else match ReadRecord(bs)
      case None => None
      case Some((op, rest)) =>
        match ReadRecords(rest)
        case None => None
        case Some(ops) => Some([op] + ops)
  }

  /** The sequence number and the operations of a batch, from its bytes. */
  function Parsed(rep: Bytes): Option<(nat, seq<Operation>)> {
    if |rep| < HEADER then None
    else match ReadRecords(rep[HEADER..])
      case None => None
      case Some(ops) => Some((Value(rep[..8]), ops))
  }

  /** Slices of at most 4 GiB, as the length is kept in 32 bits. */
  predicate Small(op: Operation) {
    |op.key| < 0x1_0000_0000 && (op.Put? ==> |op.value| < 0x1_0000_0000)
  }

  lemma SliceRoundTrip(bs: Bytes, rest: Bytes)
    requires |bs| < 0x1_0000_0000
    ensures ReadSlice(Slice(bs) + rest) == Some((bs, rest))
  {
    assert Slice(bs) + rest == Varint(|bs|) + (bs + rest);
    VarintRoundTrip(|bs|, bs + rest);
    assert (bs + rest)[..|bs|] == bs && (bs + rest)[|bs|..] == rest;
  }

  lemma RecordRoundTrip(op: Operation, rest: Bytes)
    requires Small(op)
    ensures ReadRecord(Record(op) + rest) == Some((op, rest))
  {
    match op {
      case Put(key, value) =>
        Regroup([TYPE_VALUE], Slice(key) + Slice(value), rest);
        Regroup(Slice(key), Slice(value), rest);
        Tail(TYPE_VALUE, Slice(key) + (Slice(value) + rest));
        SliceRoundTrip(key, Slice(value) + rest);
        SliceRoundTrip(value, rest);
      case Delete(key) =>
        Regroup([TYPE_DELETION], Slice(key), rest);
        Tail(TYPE_DELETION, Slice(key) + rest);
        SliceRoundTrip(key, rest);
    }
  }

  lemma Tail(b: Byte, bs: Bytes)
    ensures ([b] + bs)[1..] == bs
  {
  }

  /** The records of a batch read back as the operations that were put in, in order. */
  lemma {:induction false} RecordsRoundTrip(ops: seq<Operation>)
    requires forall op :: op in ops ==> Small(op)
    ensures ReadRecords(Records(ops)) == Some(ops)
  {
    if ops != [] {
      RecordsRoundTrip(ops[1..]);
      RecordRoundTrip(ops[0], Records(ops[1..]));
      assert [ops[0]] + ops[1..] == ops;
    }
  }

  /** Appending batches appends their records: a group's bytes are its members' records in order. */
  lemma {:induction false} RecordsPlus(a: seq<Operation>, b: seq<Operation>)
    ensures Records(a + b) == Records(a) + Records(b)
  {
    if a == [] {
      assert a + b == b;
    } else {
      assert (a + b)[1..] == a[1..] + b;
      RecordsPlus(a[1..], b);
    }
  }

  /** Incrementing a counter kept in a fixed number of bytes counts modulo its range. */
  lemma {:induction false} FixedValue(n: nat, width: nat)
    ensures Value(Fixed(n, width)) == n % Radix(width)
    decreases width
  {
    if width > 0 {
      FixedValue(n / 256, width - 1);
      assert Fixed(n, width)[1..] == Fixed(n / 256, width - 1);
      SplitModulo(n, Radix(width - 1));
    }
  }

  lemma SplitModulo(n: nat, r: nat)
    requires r >= 1
    ensures n % (256 * r) == n % 256 + 256 * (n / 256 % r)
  {
    var q := n / 256 / r;
    var m := n % 256 + 256 * (n / 256 % r);
    assert n / 256 == r * q + n / 256 % r;
    assert n == (256 * r) * q + m by {
      assert 256 * (r * q) == (256 * r) * q;
    }
    QuotientIs(n, 256 * r, q, m);
  }

  lemma {:induction false} FixedWraps(n: nat, k: nat, width: nat)
    ensures Fixed(n + k * Radix(width), width) == Fixed(n, width)
    decreases width
  {
    if width > 0 {
      var step := k * Radix(width - 1);
      assert k * Radix(width) == 256 * step;
      FixedWraps(n / 256, k, width - 1);
    }
  }

  lemma CountOneMore(n: nat)
    ensures Fixed(Value(Fixed(n, FIXED32)) + 1, FIXED32) == Fixed(n + 1, FIXED32)
  {
    FixedValue(n, FIXED32);
    var r := Radix(FIXED32);
    assert n + 1 == n % r + 1 + (n / r) * r;
    FixedWraps(n % r + 1, n / r, FIXED32);
  }

  lemma HeaderParts(a: Bytes, b: Bytes, c: Bytes)
    requires |a| == 8 && |b| == 4
    ensures var rep := a + b + c; rep[..8] == a && rep[8..12] == b && rep[12..] == c && rep[8..] == b + c
  {
  }

  /** SetCount(Count() + 1) */
  function Recounted(rep: Bytes): Bytes
    requires |rep| >= HEADER
  {
    rep[..8] + Fixed(Value(rep[8..12]) + 1, FIXED32) + rep[12..]
  }

  lemma CountedAgain(rep: Bytes, head: Bytes, n: nat, tail: Bytes)
    requires |head| == 8 && rep == head + Fixed(n, FIXED32) + tail
    ensures |rep| >= HEADER && Recounted(rep) == head + Fixed(n + 1, FIXED32) + tail
  {
    HeaderParts(head, Fixed(n, FIXED32), tail);
    CountOneMore(n);
  }

  class WriteBatch {
    var rep: Bytes
    ghost var ops: seq<Operation>
    ghost var sequence: nat

    /** The bytes are the header for the operations so far, and their records. */
    ghost predicate Valid()
      reads this
    {
      rep == Fixed(sequence, FIXED64) + Fixed(|ops|, FIXED32) + Records(ops)
    }

    constructor ()
      ensures Valid() && ops == []
    {
      rep := Fixed(0, FIXED64) + Fixed(0, FIXED32);
      ops, sequence := [], 0;
    }

    method SetSequence(number: nat)
      requires Valid()
      modifies this
      ensures Valid() && ops == old(ops) && sequence == number
    {
      HeaderParts(Fixed(sequence, FIXED64), Fixed(|ops|, FIXED32), Records(ops));
      Regroup(Fixed(number, FIXED64), Fixed(|ops|, FIXED32), Records(ops));
      rep := Fixed(number, FIXED64) + rep[8..];
      sequence := number;
    }

    method Put(key: Bytes, value: Bytes)
      requires Valid()
      modifies this
      ensures Valid() && ops == old(ops) + [Operation.Put(key, value)] && sequence == old(sequence)
    {
      CountedAgain(rep, Fixed(sequence, FIXED64), |ops|, Records(ops));
      rep := Recounted(rep);
      rep := rep + [TYPE_VALUE];
      rep := rep + Slice(key);
      rep := rep + Slice(value);
      Appended(Fixed(sequence, FIXED64) + Fixed(|ops| + 1, FIXED32), ops, Operation.Put(key, value));
      ops := ops + [Operation.Put(key, value)];
    }

    method Delete(key: Bytes)
      requires Valid()
      modifies this
      ensures Valid() && ops == old(ops) + [Operation.Delete(key)] && sequence == old(sequence)
    {
      CountedAgain(rep, Fixed(sequence, FIXED64), |ops|, Records(ops));
      rep := Recounted(rep);
      rep := rep + [TYPE_DELETION];
      rep := rep + Slice(key);
      Appended(Fixed(sequence, FIXED64) + Fixed(|ops| + 1, FIXED32), ops, Operation.Delete(key));
      ops := ops + [Operation.Delete(key)];
    }

    /** What a reader of the bytes finds. */
    lemma ReadsBack()
      requires Valid() && forall op :: op in ops ==> Small(op)
      ensures |rep| >= HEADER && ReadRecords(rep[HEADER..]) == Some(ops)
      ensures Value(rep[8..HEADER]) == |ops| % 0x1_0000_0000
      ensures Value(rep[..8]) == sequence % 0x1_0000_0000_0000_0000
      ensures Parsed(rep) == Some((sequence % 0x1_0000_0000_0000_0000, ops))
    {
      HeaderParts(Fixed(sequence, FIXED64), Fixed(|ops|, FIXED32), Records(ops));
      RecordsRoundTrip(ops);
      FixedValue(|ops|, FIXED32);
      FixedValue(sequence, FIXED64);
      RadixValues();
    }
  }

  lemma Appended(header: Bytes, ops: seq<Operation>, op: Operation)
    ensures header + Records(ops + [op]) == header + Records(ops) + Record(op)
    ensures
      var front := header + Records(ops);
      match op
      case Put(key, value) => front + Record(op) == front + [TYPE_VALUE] + Slice(key) + Slice(value)
      case Delete(key) => front + Record(op) == front + [TYPE_DELETION] + Slice(key)
  {
    RecordsPlus(ops, [op]);
    assert Records([op]) == Record(op);
    Regroup(header, Records(ops), Record(op));
    var front := header + Records(ops);
    match op {
      case Put(key, value) =>
        Regroup(front, [TYPE_VALUE], Slice(key) + Slice(value));
        Regroup(front + [TYPE_VALUE], Slice(key), Slice(value));
      case Delete(key) =>
        Regroup(front, [TYPE_DELETION], Slice(key));
    }
  }
}
