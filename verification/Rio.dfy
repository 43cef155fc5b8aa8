/** Robust I/O: reading and writing whole amounts, and a buffered reader for lines and blocks, over a
    kernel that may deliver any part of what is asked for, be interrupted, or fail. */
module Rio {
  import opened Coding

  const RIO_BUFSIZE: nat := 8192
  const NEWLINE: Byte := 10

  datatype Outcome = Got(count: nat) | Interrupted | Failed

  /** A descriptor open for reading. `data` is what has not been read yet; there are finitely many
      interruptions to come, and `failures` counts the failed calls. */
  class Source {
    var data: Bytes
    var interrupts: nat
    ghost var failures: nat

    /** read(fd, dst + p, n): any positive part of what there is, zero only at the end. */
    method Read(dst: array<Byte>, p: nat, n: nat) returns (r: Outcome)
      requires n >= 1 && p + n <= dst.Length
      modifies this, dst
      ensures r.Got? ==> failures == old(failures) && interrupts == old(interrupts) && r.count <= n
      ensures r.Got? ==> old(data) == dst[p..p + r.count] + data && (r.count == 0 <==> old(data) == [])
      ensures r.Got? ==> dst[..p] == old(dst[..p])
      ensures !r.Got? ==> data == old(data) && dst[..] == old(dst[..])
      ensures r.Interrupted? ==> failures == old(failures) && interrupts < old(interrupts)
      ensures r.Failed? ==> failures == old(failures) + 1 && interrupts == old(interrupts)
    {
      var fate: int := *;
      if fate == 0 {
        failures := failures + 1;
        return Failed;
      } else if fate == 1 && interrupts > 0 {
        interrupts := interrupts - 1;
        return Interrupted;
      }
      var count: int := *;
      var most := if n <= |data| then n else |data|;
      if count < 1 || count > most { count := most; }
      forall i | 0 <= i < count { dst[p + i] := data[i]; }
      assert dst[p..p + count] == data[..count];
      data := data[count..];
      return Got(count);
    }
  }

  /** A descriptor open for writing; a call that writes nothing reports an interruption or a failure. */
  class Sink {
    var written: Bytes
    var interrupts: nat
    ghost var failures: nat

    method Write(bs: Bytes) returns (r: Outcome)
      requires bs != []
      modifies this
      ensures r.Got? ==> 1 <= r.count <= |bs| && written == old(written) + bs[..r.count]
      ensures r.Got? ==> interrupts == old(interrupts)
      ensures !r.Got? ==> written == old(written)
      ensures r.Interrupted? ==> interrupts < old(interrupts)
      ensures failures == old(failures) + if r.Failed? then 1 else 0
    {
      var fate: int := *;
      if fate == 0 {
        failures := failures + 1;
        return Failed;
      } else if fate == 1 && interrupts > 0 {
        interrupts := interrupts - 1;
        return Interrupted;
      }
      var count: int := *;
      if count < 1 || count > |bs| { count := |bs|; }
      written := written + bs[..count];
      return Got(count);
    }
  }

  function Min(a: nat, b: nat): nat {
    if a <= b then a else b
  }

  /** Unbuffered: fills the buffer unless the input ends or a call fails, and loses nothing. */
  method ReadN(fd: Source, usrbuf: array<Byte>, n: nat) returns (rc: int, ghost got: nat)
    requires n <= usrbuf.Length
    modifies fd, usrbuf
    ensures got <= n && old(fd.data) == usrbuf[..got] + fd.data
    ensures fd.failures == old(fd.failures) + if rc == -1 then 1 else 0
    ensures rc != -1 ==> rc == got == Min(n, |old(fd.data)|)
  {
    var nleft: nat, bufp: nat := n, 0;
    while nleft > 0
      invariant bufp + nleft == n && old(fd.data) == usrbuf[..bufp] + fd.data && fd.failures == old(fd.failures)
      decreases nleft, fd.interrupts
    {
      ghost var before, front := fd.data, usrbuf[..bufp];
      var r := fd.Read(usrbuf, bufp, nleft);
      if r.Failed? {
        assert usrbuf[..][..bufp] == front;
        return -1, bufp;
      }
      if r == Got(0) {
        Regroup(front, usrbuf[bufp..bufp], fd.data);
        assert usrbuf[..bufp] == front;
        break;
      }
      if r.Got? {
        Regroup(front, usrbuf[bufp..bufp + r.count], fd.data);
        assert usrbuf[..bufp + r.count] == front + usrbuf[bufp..bufp + r.count];
        nleft := nleft - r.count;
        bufp := bufp + r.count;
      } else {
        assert usrbuf[..][..bufp] == front;
      }
    }
    return n - nleft, bufp;
  }

  /** Writes everything in order through interruptions, or fails after writing some prefix when a call fails. */
  method WriteN(fd: Sink, bs: Bytes) returns (rc: int, ghost done: nat)
    modifies fd
    ensures done <= |bs| && fd.written == old(fd.written) + bs[..done]
    ensures rc == -1 || (rc == |bs| == done)
    ensures fd.failures == old(fd.failures) + if rc == -1 then 1 else 0
  {
    var nleft: nat, bufp: nat := |bs|, 0;
    while nleft > 0
      invariant bufp + nleft == |bs| && fd.written == old(fd.written) + bs[..bufp] && fd.failures == old(fd.failures)
      decreases nleft, fd.interrupts
    {
      var r := fd.Write(bs[bufp..]);
      if r.Failed? { return -1, bufp; }
      if r.Got? {
        assert bs[..bufp + r.count] == bs[..bufp] + bs[bufp..][..r.count];
        nleft := nleft - r.count;
        bufp := bufp + r.count;
      }
    }
    return |bs|, bufp;
  }

  // ---------------------------------------------------------------------------------------
  // What the buffered reader should deliver, as a function of the stream

  /** How many bytes of `s` a line takes: to the newline, at most `most`, or to the end. */
  function LineLength(s: Bytes, most: nat): (n: nat)
    ensures n <= most && n <= |s|
  {
    if most == 0 || s == [] then 0
    else if s[0] == NEWLINE then 1
    else 1 + LineLength(s[1..], most - 1)
  }

  /** The line's length stated outright. */
  lemma {:induction false} LineLengthIs(s: Bytes, most: nat)
    ensures var n := LineLength(s, most);
      && (forall i :: 0 <= i < n - 1 ==> s[i] != NEWLINE)
      && (n == most || n == |s| || (n > 0 && s[n - 1] == NEWLINE))
  {
    if most > 0 && s != [] && s[0] != NEWLINE {
      LineLengthIs(s[1..], most - 1);
      var n := LineLength(s, most);
      forall i | 0 <= i < n - 1 ensures s[i] != NEWLINE {
        assert i > 0 ==> s[i] == s[1..][i - 1];
      }
    }
  }

  function EndsLine(bs: Bytes): bool {
    bs != [] && bs[|bs| - 1] == NEWLINE
  }

  /** The value returned for a line: its length when it ends in a newline, zero when there was no byte,
      and one more than its length otherwise. */
  function LineResult(line: Bytes, maxlen: nat): nat {
    if EndsLine(line) then |line| else if line == [] && maxlen >= 2 then 0 else |line| + 1
  }

  datatype Call = ReadLine(maxlen: nat) | ReadBlock(n: nat)

  function Delivered(s: Bytes, call: Call): (n: nat)
    ensures n <= |s|
  {
    match call
    case ReadLine(maxlen) => LineLength(s, if maxlen == 0 then 0 else maxlen - 1)
    case ReadBlock(n) => Min(n, |s|)
  }

  function Result(s: Bytes, call: Call): nat {
    match call
    case ReadLine(maxlen) => LineResult(s[..Delivered(s, call)], maxlen)
    case ReadBlock(n) => Delivered(s, call)
  }

  /** The results and contents that a sequence of calls gives on a stream, however it is chunked. */
  function Answers(s: Bytes, calls: seq<Call>): seq<(int, Bytes)>
    decreases calls
  {
    if calls == [] then []
    else
      var n := Delivered(s, calls[0]);
      [(Result(s, calls[0]), s[..n])] + Answers(s[n..], calls[1..])
  }

  // ---------------------------------------------------------------------------------------
  // The buffered reader

  class Reader {
    const fd: Source
    const buf: array<Byte>
    var cnt: int
    var bufptr: nat

    /** The whole stream, and how much of it has been delivered to callers. */
    ghost const whole: Bytes
    ghost var pos: nat

    /** The internal bytes and then the source hold exactly what was not delivered yet. */
    ghost predicate Valid()
      reads this, buf, fd
    {
      && buf.Length == RIO_BUFSIZE && -1 <= cnt && bufptr <= RIO_BUFSIZE && bufptr + Count() <= RIO_BUFSIZE
      && pos + Count() + |fd.data| == |whole|
      && (forall k :: pos <= k < pos + Count() ==> whole[k] == buf[bufptr + (k - pos)])
      && (forall k :: pos + Count() <= k < |whole| ==> whole[k] == fd.data[k - (pos + Count())])
    }

    /** How many internal bytes are unread: none after a failure, which leaves the counter at -1. */
    function Count(): nat
      reads this
    {
      if cnt < 0 then 0 else cnt
    }

    constructor (fd: Source)
      ensures Valid() && fresh(buf) && this.fd == fd && pos == 0 && whole == fd.data
    {
      this.fd := fd;
      buf := new Byte[RIO_BUFSIZE];
      cnt, bufptr, whole, pos := 0, 0, fd.data, 0;
    }

    /** The loop of rio_read: fills the internal buffer if it is empty. */
    method Fill() returns (rc: int)
      requires Valid()
      modifies `cnt, `bufptr, buf, fd
      ensures Valid() && -1 <= rc <= 1
      ensures fd.failures == old(fd.failures) + if rc == -1 then 1 else 0
      ensures rc == 0 ==> pos == |whole|
      ensures rc == 1 ==> cnt > 0
    {
      while cnt <= 0
        invariant Valid() && fd.failures == old(fd.failures)
        decreases cnt <= 0, fd.interrupts
      {
        var r := fd.Read(buf, 0, RIO_BUFSIZE);
        cnt := if r.Got? then r.count else -1;
        if cnt < 0 {
          if r.Failed? { return -1; }
        } else if cnt == 0 {
          return 0;
        } else {
          bufptr := 0;
        }
      }
      return 1;
    }

    /** rio_read: the next bytes of the stream, at least one and at most `n`, into the caller's buffer
        at `p`; zero only at the end. */
    method Take(usrbuf: array<Byte>, p: nat, n: nat) returns (rc: int)
      requires Valid() && n >= 1 && p + n <= usrbuf.Length && usrbuf != buf
      modifies this, buf, fd, usrbuf
      ensures Valid() && -1 <= rc <= n
      ensures fd.failures == old(fd.failures) + if rc == -1 then 1 else 0
      ensures pos == old(pos) + if rc == -1 then 0 else rc
      ensures rc == 0 ==> pos == |whole|
      ensures rc <= 0 ==> usrbuf[..p] == old(usrbuf[..p])
      ensures rc > 0 ==> usrbuf[..p + rc] == old(usrbuf[..p]) + whole[old(pos)..pos]
    {
      rc := Fill();
      if rc > 0 {
        rc := if cnt < n then cnt else n;
        HandOver(usrbuf, p, rc);
      }
    }

    /** The part of rio_read after the loop: internal bytes go to the caller. */
    method HandOver(usrbuf: array<Byte>, p: nat, count: nat)
      requires Valid() && 0 < count <= cnt && p + count <= usrbuf.Length && usrbuf != buf
      modifies `cnt, `bufptr, `pos, usrbuf
      ensures Valid() && pos == old(pos) + count
      ensures usrbuf[..p + count] == old(usrbuf[..p]) + whole[old(pos)..pos]
    {
      CopyOut(usrbuf, p, count);
      assert buf[bufptr..bufptr + count] == whole[pos..pos + count];
      bufptr := bufptr + count;
      cnt := cnt - count;
      pos := pos + count;
    }

    /** memcpy(usrbuf + p, rio_bufptr, count) */
    method CopyOut(usrbuf: array<Byte>, p: nat, count: nat)
      requires p + count <= usrbuf.Length && bufptr + count <= buf.Length && usrbuf != buf
      modifies usrbuf
      ensures usrbuf[..p + count] == old(usrbuf[..p]) + buf[bufptr..bufptr + count]
    {
      forall i | 0 <= i < count { usrbuf[p + i] := buf[bufptr + i]; }
    }

    /** rio_read for a single byte. */
    method TakeByte(usrbuf: array<Byte>, p: nat) returns (rc: int)
      requires Valid() && p < usrbuf.Length && usrbuf != buf
      modifies this, buf, fd, usrbuf
      ensures Valid() && -1 <= rc <= 1
      ensures fd.failures == old(fd.failures) + if rc == -1 then 1 else 0
      ensures pos == old(pos) + if rc == 1 then 1 else 0
      ensures rc == 0 ==> pos == |whole|
      ensures rc <= 0 ==> usrbuf[..p] == old(usrbuf[..p])
      ensures rc == 1 ==> usrbuf[p] == whole[old(pos)] && usrbuf[..p + 1] == old(usrbuf[..p]) + [whole[old(pos)]]
    {
      rc := Take(usrbuf, p, 1);
      if rc == 1 {
        assert whole[old(pos)..pos] == [whole[old(pos)]];
        assert usrbuf[p] == usrbuf[..p + 1][p];
      }
    }

    /** The same for the next byte of a line that began at `start`. */
    method TakeNext(usrbuf: array<Byte>, ghost start: nat, got: nat) returns (rc: int)
      requires Valid() && got < usrbuf.Length && usrbuf != buf
      requires pos == start + got && usrbuf[..got] == whole[start..pos]
      modifies this, buf, fd, usrbuf
      ensures Valid() && -1 <= rc <= 1
      ensures fd.failures == old(fd.failures) + if rc == -1 then 1 else 0
      ensures rc == 0 ==> pos == |whole|
      ensures
        var now := if rc == 1 then got + 1 else got;
        pos == start + now && usrbuf[..now] == whole[start..pos] && (rc == 1 ==> usrbuf[got] == whole[pos - 1])
    {
      rc := TakeByte(usrbuf, got);
      if rc == 1 { OneMore(whole, start, pos - 1); }
    }

    /** rio_readnb: the bytes copied are the next of the stream, also when a call fails on the way; and
        without a failure the block is as long as the request or what was left. */
    method ReadNB(usrbuf: array<Byte>, n: nat) returns (rc: int, got: nat)
      requires Valid() && n <= usrbuf.Length && usrbuf != buf
      modifies this, buf, fd, usrbuf
      ensures Valid() && got <= n && pos == old(pos) + got && usrbuf[..got] == whole[old(pos)..pos]
      ensures fd.failures == old(fd.failures) + if rc == -1 then 1 else 0
      ensures rc != -1 ==> rc == got == Min(n, |whole| - old(pos))
    {
      var nleft: nat, bufp: nat := n, 0;
      while nleft > 0
        invariant Valid() && bufp + nleft == n && pos == old(pos) + bufp && usrbuf[..bufp] == whole[old(pos)..pos]
        invariant fd.failures == old(fd.failures)
      {
        var nread := Take(usrbuf, bufp, nleft);
        if nread < 0 { return -1, bufp; }
        if nread == 0 { break; }
        assert whole[old(pos)..pos] == whole[old(pos)..pos - nread] + whole[pos - nread..pos];
        nleft := nleft - nread;
        bufp := bufp + nread;
      }
      return n - nleft, bufp;
    }

    /** The loop of rio_readlineb. */
    method CopyLine(usrbuf: array<Byte>, maxlen: nat) returns (n: int, got: nat)
      requires Valid() && maxlen <= usrbuf.Length && usrbuf != buf
      modifies this, buf, fd, usrbuf
      ensures Valid() && got <= Most(maxlen) && pos == old(pos) + got && usrbuf[..got] == whole[old(pos)..pos]
      ensures fd.failures == old(fd.failures) + if n == -1 then 1 else 0
      ensures n != -1 ==> IsLine(whole, old(pos), maxlen, got) && n == LineResult(whole[old(pos)..pos], maxlen)
    {
      n, got := 1, 0;
      while n < maxlen
        invariant Valid() && n == got + 1 && got <= Most(maxlen)
        invariant pos == old(pos) + got && usrbuf[..got] == whole[old(pos)..pos]
        invariant NoNewline(whole, old(pos), pos)
        invariant fd.failures == old(fd.failures)
      {
        var rc := TakeNext(usrbuf, old(pos), got);
        if rc == 1 {
          got := got + 1;
          if usrbuf[got - 1] == NEWLINE {
            StoppedAtNewline(whole, old(pos), maxlen, got);
            return n, got;
          }
        } else if rc == 0 {
          StoppedElsewhere(whole, old(pos), maxlen, got);
          if n == 1 { return 0, 0; }
          return n, got;
        } else {
          return -1, got;
        }
        n := n + 1;
      }
      StoppedElsewhere(whole, old(pos), maxlen, got);
    }

    /** rio_readlineb: conserves the stream like rio_readnb; without a failure the line is the stream's
        next line, and it is terminated by a zero. */
    method ReadLineB(usrbuf: array<Byte>, maxlen: nat) returns (rc: int, got: nat)
      requires Valid() && maxlen <= usrbuf.Length && 1 <= usrbuf.Length && usrbuf != buf
      modifies this, buf, fd, usrbuf
      ensures Valid() && got < usrbuf.Length && pos == old(pos) + got && usrbuf[..got] == whole[old(pos)..pos]
      ensures fd.failures == old(fd.failures) + if rc == -1 then 1 else 0
      ensures rc != -1 ==> got == Delivered(whole[old(pos)..], ReadLine(maxlen))
      ensures rc != -1 ==> rc == Result(whole[old(pos)..], ReadLine(maxlen))
      ensures rc > 0 ==> usrbuf[got] == 0
    {
      rc, got := CopyLine(usrbuf, maxlen);
      if rc != -1 {
        LineIs(whole, old(pos), maxlen, got);
      }
      if rc > 0 {
        ghost var line := usrbuf[..got];
        usrbuf[got] := 0;
        assert usrbuf[..got] == line;
      }
    }
  }

  /** The most bytes a line may take: one is kept for the terminator. */
  function Most(maxlen: nat): nat {
    if maxlen == 0 then 0 else maxlen - 1
  }

  ghost predicate NoNewline(s: Bytes, i: nat, j: nat)
    requires j <= |s|
  {
    forall k :: i <= k < j ==> s[k] != NEWLINE
  }

  /** A line of `n` bytes from `i`, by where it ends: at the first newline, at the limit, or with the stream. */
  ghost predicate IsLine(s: Bytes, i: nat, maxlen: nat, n: nat) {
    && i + n <= |s| && n <= Most(maxlen)
    && NoNewline(s, i, if n == 0 then i else i + n - 1)
    && (i + n == |s| || n == Most(maxlen) || (n > 0 && s[i + n - 1] == NEWLINE))
  }

  lemma StoppedAtNewline(s: Bytes, i: nat, maxlen: nat, n: nat)
    requires 0 < n && i + n <= |s| && n < maxlen && NoNewline(s, i, i + n - 1) && s[i + n - 1] == NEWLINE
    ensures IsLine(s, i, maxlen, n) && LineResult(s[i..i + n], maxlen) == n
  {
  }

  lemma StoppedElsewhere(s: Bytes, i: nat, maxlen: nat, n: nat)
    requires i + n <= |s| && n <= Most(maxlen) && NoNewline(s, i, i + n)
    requires i + n == |s| || n == Most(maxlen)
    ensures IsLine(s, i, maxlen, n) && LineResult(s[i..i + n], maxlen) == if n == 0 && maxlen >= 2 then 0 else n + 1
  {
  }

  lemma LineIs(s: Bytes, i: nat, maxlen: nat, n: nat)
    requires IsLine(s, i, maxlen, n)
    ensures Delivered(s[i..], ReadLine(maxlen)) == n
    ensures Result(s[i..], ReadLine(maxlen)) == LineResult(s[i..i + n], maxlen)
  {
    if n > 0 && s[i + n - 1] == NEWLINE {
      LineEnds(s[i..], Most(maxlen), n - 1);
    } else {
      LineEnds(s[i..], Most(maxlen), n);
    }
    assert s[i..][..n] == s[i..i + n];
  }

  /** Where a line without a newline so far ends. */
  lemma {:induction false} LineEnds(s: Bytes, most: nat, n: nat)
    requires n <= most && n <= |s| && NoNewline(s, 0, n)
    ensures n == most || n == |s| ==> LineLength(s, most) == n
    ensures n < most && n < |s| && s[n] == NEWLINE ==> LineLength(s, most) == n + 1
  {
    if n > 0 {
      LineEnds(s[1..], most - 1, n - 1);
    }
  }

  lemma OneMore(s: Bytes, i: nat, j: nat)
    requires i <= j < |s|
    ensures s[i..j] + [s[j]] == s[i..j + 1]
  {
  }

  // ---------------------------------------------------------------------------------------
  // Any mix of calls

  /** One call, with a buffer of its own. */
  method Perform(reader: Reader, call: Call) returns (rc: int, out: Bytes)
    requires reader.Valid()
    modifies reader, reader.buf, reader.fd
    ensures reader.Valid() && reader.pos == old(reader.pos) + |out| && out == reader.whole[old(reader.pos)..reader.pos]
    ensures reader.fd.failures == old(reader.fd.failures) + if rc == -1 then 1 else 0
    ensures rc != -1 ==>
      && |out| == Delivered(reader.whole[old(reader.pos)..], call)
      && rc == Result(reader.whole[old(reader.pos)..], call)
  {
    var got: nat;
    match call {
      case ReadLine(maxlen) =>
        var usrbuf := new Byte[if maxlen == 0 then 1 else maxlen];
        rc, got := reader.ReadLineB(usrbuf, maxlen);
        out := usrbuf[..got];
      case ReadBlock(n) =>
        var usrbuf := new Byte[n];
        rc, got := reader.ReadNB(usrbuf, n);
        out := usrbuf[..got];
    }
  }

  function Contents(answers: seq<(int, Bytes)>): Bytes {
    if answers == [] then [] else answers[0].1 + Contents(answers[1..])
  }

  /** Any sequence of line and block reads delivers a prefix of what was left, and the internal bytes and
      the source hold the rest (`Valid`); when no call failed, the answers do not depend on how the source
      was chunked. */
  method PerformAll(reader: Reader, calls: seq<Call>) returns (answers: seq<(int, Bytes)>)
    requires reader.Valid()
    modifies reader, reader.buf, reader.fd
    ensures reader.Valid() && |answers| == |calls| && reader.fd.failures >= old(reader.fd.failures)
    ensures reader.pos >= old(reader.pos) && Contents(answers) == reader.whole[old(reader.pos)..reader.pos]
    ensures reader.fd.failures == old(reader.fd.failures) ==> answers == Answers(reader.whole[old(reader.pos)..], calls)
    decreases calls
  {
    if calls == [] { return []; }
    var rc, out := Perform(reader, calls[0]);
    ghost var between := reader.pos;
    var rest := PerformAll(reader, calls[1..]);
    answers := [(rc, out)] + rest;
    assert answers[1..] == rest;
    Suffixes(reader.whole, old(reader.pos), between, reader.pos);
  }

  lemma Suffixes(s: Bytes, i: nat, j: nat, k: nat)
    requires i <= j <= k <= |s|
    ensures s[i..j] + s[j..k] == s[i..k] && s[i..][j - i..] == s[j..] && s[i..][..j - i] == s[i..j]
  {
  }
}
