/** Byte strings and the integer encodings shared by the models: fixed-width
    little-endian integers and the variable-length integers of LevelDB. */
module Coding {

  type Byte = b: int | 0 <= b < 256

  type Bytes = seq<Byte>

  datatype Option<+T> = None | Some(value: T)

  /** The widths of the fixed-size integers. */
  const FIXED32: nat := 4
  const FIXED64: nat := 8

  /** 256 to the power `width`. */
  function Radix(width: nat): (r: nat)
    ensures r >= 1
  {
    if width == 0 then 1 else 256 * Radix(width - 1)
  }

  /** The low `width` bytes of `n`, least significant first. */
  function Fixed(n: nat, width: nat): (bs: Bytes)
    ensures |bs| == width
  {
    if width == 0 then [] else [n % 256] + Fixed(n / 256, width - 1)
  }

  /** The number that little-endian bytes denote. */
  function Value(bs: Bytes): nat {
    if bs == [] then 0 else bs[0] + 256 * Value(bs[1..])
  }

  /** A fixed-width integer is read back as it was written, up to truncation to its width. */
  lemma {:induction false} FixedRoundTrip(n: nat, width: nat)
    requires n < Radix(width)
    ensures Value(Fixed(n, width)) == n
    decreases width
  {
    if width > 0 {
      FixedRoundTrip(n / 256, width - 1);
      assert Fixed(n, width)[1..] == Fixed(n / 256, width - 1);
    }
  }

  lemma {:induction false} ValueBound(bs: Bytes)
    ensures Value(bs) < Radix(|bs|)
  {
    if bs != [] {
      ValueBound(bs[1..]);
    }
  }

  /** Bytes are what their number is written as. */
  lemma {:induction false} FixedOfValue(bs: Bytes)
    ensures Fixed(Value(bs), |bs|) == bs
  {
    if bs != [] {
      FixedOfValue(bs[1..]);
      QuotientIs(Value(bs), 256, Value(bs[1..]), bs[0]);
      assert [bs[0]] + bs[1..] == bs;
    }
  }

  lemma RadixValues()
    ensures Radix(4) == 0x1_0000_0000
    ensures Radix(7) == 0x100_0000_0000_0000
    ensures Radix(8) == 0x1_0000_0000_0000_0000
  {
    assert Radix(3) == 0x100_0000;
    assert Radix(6) == 0x1_0000_0000_0000;
  }

  /** Seven bits a byte, the high bit set on every byte but the last. */
  function Varint(n: nat): (bs: Bytes)
    ensures 1 <= |bs|
  {
    if n < 128 then [n] else [128 + n % 128] + Varint(n / 128)
  }

  /** Reads one variable-length integer at the head of `bs`: its value and the bytes after it. */
  function ReadVarint(bs: Bytes): Option<(nat, Bytes)> {
    if bs == [] then None
    else if bs[0] < 128 then Some((bs[0], bs[1..]))
    else match ReadVarint(bs[1..])
      case None => None
      case Some((high, rest)) => Some((bs[0] - 128 + 128 * high, rest))
  }

  lemma {:induction false} VarintRoundTrip(n: nat, rest: Bytes)
    ensures ReadVarint(Varint(n) + rest) == Some((n, rest))
  {
    var bs := Varint(n) + rest;
    if n < 128 {
      assert bs[1..] == rest;
    } else {
      assert bs[1..] == Varint(n / 128) + rest;
      VarintRoundTrip(n / 128, rest);
    }
  }

  /** The number whose seven-bit digits the bytes carry, lowest first. */
  function Digits(bs: Bytes): nat {
    if bs == [] then 0 else bs[0] % 128 + 128 * Digits(bs[1..])
  }

  /** The format: the high bit is set on every byte but the last, the low bits are the digits of the number, and
      there are no more of them than it has. */
  lemma {:induction false} VarintFormat(n: nat)
    ensures
      var bs := Varint(n); var last := |bs| - 1;
      && Digits(bs) == n && (forall i :: 0 <= i < last ==> bs[i] >= 128)
      && bs[last] < 128 && (last > 0 ==> bs[last] != 0)
  {
    var bs := Varint(n);
    if n < 128 {
      assert bs[1..] == [];
    } else {
      VarintFormat(n / 128);
      assert bs[1..] == Varint(n / 128);
      assert forall i :: 0 < i < |bs| ==> bs[i] == bs[1..][i - 1];
    }
  }

  /** A 32-bit length takes at most five bytes. */
  lemma VarintAtMostFive(n: nat)
    requires n < 0x1_0000_0000
    ensures |Varint(n)| <= 5
  {
    assert n / 128 / 128 / 128 / 128 < 16;
    assert |Varint(n / 128 / 128 / 128 / 128)| == 1;
    assert |Varint(n / 128 / 128 / 128)| <= 2;
    assert |Varint(n / 128 / 128)| <= 3;
    assert |Varint(n / 128)| <= 4;
  }

  /** The concatenation of byte strings. */
  function Concat(parts: seq<Bytes>): Bytes {
    if parts == [] then [] else parts[0] + Concat(parts[1..])
  }

  lemma {:induction false} ConcatAppend(parts: seq<Bytes>, last: Bytes)
    ensures Concat(parts + [last]) == Concat(parts) + last
  {
    if parts == [] {
      assert parts + [last] == [last];
    } else {
      assert (parts + [last])[1..] == parts[1..] + [last];
      ConcatAppend(parts[1..], last);
    }
  }

  lemma {:induction false} ConcatPlus(parts: seq<Bytes>, more: seq<Bytes>)
    ensures Concat(parts + more) == Concat(parts) + Concat(more)
  {
    if parts == [] {
      assert parts + more == more;
    } else {
      assert (parts + more)[1..] == parts[1..] + more;
      ConcatPlus(parts[1..], more);
    }
  }

  // ---------------------------------------------------------------------------------------
  // Small facts about byte strings and division

  lemma Regroup(a: Bytes, b: Bytes, c: Bytes)
    ensures (a + b) + c == a + (b + c)
  {
  }

  lemma Cut(a: Bytes, b: Bytes)
    ensures (a + b)[..|a|] == a && (a + b)[|a|..] == b
  {
  }

  lemma Cut3(a: Bytes, b: Bytes, c: Bytes)
    ensures
      var all := a + b + c;
      var i, j := |a|, |a| + |b|;
      all[..i] == a && all[i..j] == b && all[j..] == c && all[i..] == b + c
  {
  }

  lemma QuotientIs(n: nat, d: nat, q: int, m: nat)
    requires d >= 1 && n == d * q + m && m < d
    ensures n / d == q && n % d == m
  {
    assert n == d * (n / d) + n % d;
    assert d * (n / d - q) == m - n % d;
    TimesAtLeast(d, n / d - q);
  }

  lemma TimesAtLeast(d: int, x: int)
    requires d >= 0
    ensures x >= 1 ==> d * x >= d
    ensures x <= -1 ==> d * x <= -d
  {
  }

  /** Division and remainder of a successor. */
  lemma DivideStep(n: nat, d: nat)
    requires n >= 1 && d >= 1
    ensures if n % d == 0 then n / d == (n - 1) / d + 1 && (n - 1) % d + 1 == d && (n / d) * d == n
            else n / d == (n - 1) / d && n % d == (n - 1) % d + 1
  {
    var q, r := (n - 1) / d, (n - 1) % d;
    assert n == d * q + (r + 1);
    if r + 1 < d {
      QuotientIs(n, d, q, r + 1);
    } else {
      assert n == d * (q + 1);
      QuotientIs(n, d, q + 1, 0);
    }
  }

  lemma {:induction false} DivideShrinks(n: nat, d: nat)
    requires d >= 1
    ensures n / d <= n
  {
    if n == 0 {
      QuotientIs(0, d, 0, 0);
    } else {
      DivideShrinks(n - 1, d);
      DivideStep(n, d);
    }
  }
}
