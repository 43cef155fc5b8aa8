/** The connection object of the echo server over an adversarial socket: GetRequest and
    SendReply with their buffer offsets, proved to be steps of the value model. */
module InetConnection {
  import opened Coding
  import opened Frames
  import opened Echo

  const SIZE_T: nat := 0x1_0000_0000_0000_0000

  /** What a call came to: all that was asked for, less than that, nothing for now, the end of the stream, or
      an error. */
  datatype Result = Full | Short | Again | End | Fault

  /** The kernel end of a non-blocking TCP connection. Both calls may transfer fewer bytes than
      asked, or none, in every way the kernel is allowed to. */
  class Socket {
    var stream: Stream
    ghost var last: Result    // of the last call that asked for something

    constructor ()
      ensures stream == NEW_STREAM
    {
      stream := NEW_STREAM;
    }

    /** read(fd, buf + at, count): -1 with or without EAGAIN, 0, or the number of bytes placed. Zero tells that
        the client has closed its end and everything it sent was delivered, and an error that the connection
        is gone. A count that is negative as a signed size is refused, and a count of zero yields zero. */
    method Read(buf: array<Byte>, at: nat, count: nat) returns (n: int, again: bool)
      requires count < SIZE_T
      requires count < SIZE_T / 2 ==> at + count <= buf.Length
      modifies this, buf
      ensures -1 <= n <= count && n <= |old(stream.unread)|
      ensures count == 0 ==> n == 0
      ensures count >= SIZE_T / 2 ==> n == -1 && !again
      ensures 0 < count < SIZE_T / 2 ==> last == ReadResult(n, count, again)
      ensures 0 < count && last == End ==> stream.link != Up && stream.unread == []
      ensures 0 < count && last == Fault ==> count >= SIZE_T / 2 || stream.link == Broken
      ensures n == -1 ==> stream == old(stream) && buf[..] == old(buf[..])
      ensures n >= 0 ==>
        && at + n <= buf.Length && stream == Taken(old(stream), n)
        && buf[..] == old(buf[..at]) + old(stream.unread)[..n] + old(buf[at + n..])
    {
      if count >= SIZE_T / 2 {
        last := Fault;
        return -1, false;
      }
      n, again := *, *;
      if count == 0 {
        n := 0;
      } else if n < -1 || n > count || n > |stream.unread|
          || (n == 0 && (stream.link == Up || stream.unread != []))
          || (n == -1 && !again && stream.link != Broken) {
        n, again := -1, true;
      }
      if count > 0 {
        last := ReadResult(n, count, again);
      }
      if n == -1 {
        return;
      }
      var chunk := stream.unread[..n];
      stream := Taken(stream, n);
      forall i | 0 <= i < n {
        buf[at + i] := chunk[i];
      }
      assert buf[..] == old(buf[..at]) + chunk + old(buf[at + n..]);
    }

    /** write(fd, data, |data|): -1 with or without EAGAIN, the latter only when the connection is gone, or the
        number of bytes accepted. */
    method Write(data: Bytes) returns (n: int, again: bool)
      modifies this
      ensures -1 <= n <= |data|
      ensures last == WriteResult(n, |data|, again)
      ensures last == Fault ==> stream.link == Broken
      ensures n == -1 ==> stream == old(stream)
      ensures n >= 0 ==> stream == old(stream).(sent := old(stream.sent) + data[..n])
    {
      n, again := *, *;
      if n < -1 || n > |data| || (n == -1 && !again && stream.link != Broken) {
        n, again := -1, true;
      }
      last := WriteResult(n, |data|, again);
      if n >= 0 {
        stream := stream.(sent := stream.sent + data[..n]);
      }
    }
  }

  function ReadResult(n: int, count: nat, again: bool): Result {
    if n == -1 then (if again then Again else Fault)
    else if n == 0 then End
    else if n < count then Short
    else Full
  }

  function WriteResult(n: int, count: nat, again: bool): Result {
    if n == -1 then (if again then Again else Fault)
    else if n < count then Short
    else Full
  }

  /** The status that a call must end with, when the buffer held `got` after its last read and `last` is what
      that read came to. A rejected header decides by itself, otherwise the kernel does. */
  function StatusOf(got: Bytes, last: Result): ReadStatus {
    if |got| >= HEADER_LEN && (RequestLen(got) + HEADER_LEN > READ_BUFFER_SIZE || RequestLen(got) + HEADER_LEN < 0)
    then FullError
    else if |got| >= HEADER_LEN && RequestLen(got) == 0 then ReadClose
    else if |got| >= HEADER_LEN && RequestLen(got) < 0 then ReadError
    else match last
      case Full => ReadAll
      case Short => ReadHalf
      case Again => ReadHalf
      case End => ReadClose
      case Fault => ReadError
  }

  class InetConn {
    const sock: Socket
    const readBuf: array<Byte>
    var lastReadPos: nat
    var lastWritePos: nat
    var reply: Bytes

    ghost predicate Valid()
      reads this, readBuf
    {
      && readBuf.Length == READ_BUFFER_SIZE
      && lastReadPos <= READ_BUFFER_SIZE
      && lastWritePos <= |reply|
      && Partial(readBuf[..lastReadPos])
    }

    ghost function State(): Conn
      reads this, readBuf
      requires lastReadPos <= readBuf.Length
    {
      Conn(readBuf[..lastReadPos], reply, lastWritePos)
    }

    constructor (sock: Socket)
      ensures Valid() && fresh(readBuf)
      ensures this.sock == sock && State() == FRESH
    {
      this.sock := sock;
      readBuf := new Byte[READ_BUFFER_SIZE](_ => 0);
      lastReadPos := 0;
      lastWritePos := 0;
      reply := [];
    }

    method EmptyReadBuf() returns (empty: bool)
      requires Valid()
      ensures empty <==> State().buf == []
    {
      empty := lastReadPos == 0;
    }

    /** request_len + HEADER_LEN in unsigned 64-bit arithmetic. */
    static function FrameSize(len: int): nat
      requires -0x8000_0000 <= len < 0x8000_0000
    {
      if len + HEADER_LEN >= 0 then len + HEADER_LEN else len + HEADER_LEN + SIZE_T
    }

    /** One wake-up of the reader. It never touches a byte of the next frame, and whatever the
        kernel does it is a `Reads` step, with the status that the kernel's answer calls for. */
    method GetRequest() returns (rs: ReadStatus)
      requires Valid()
      modifies this, readBuf, sock
      ensures lastReadPos <= readBuf.Length
      ensures rs.ReadHalf? || (rs.ReadAll? && old(lastWritePos) == 0) ==> Valid()
      ensures exists n: nat ::
        && Reads(old(State()), old(sock.stream), n, rs, State(), sock.stream)
        && rs == StatusOf(old(State().buf) + old(sock.stream.unread)[..n], sock.last)
    {
      ghost var c0, st0 := State(), sock.stream;
      ghost var taken: nat := 0;
      NoBytes(c0, st0);
      if lastReadPos < HEADER_LEN {
        var nread, again := sock.Read(readBuf, lastReadPos, HEADER_LEN - lastReadPos);
        if nread == -1 {
          rs := if again then ReadHalf else ReadError;
          assert Reads(c0, st0, 0, rs, State(), sock.stream);
          return;
        } else if nread == 0 {
          assert Reads(c0, st0, 0, ReadClose, State(), sock.stream);
          return ReadClose;
        }
        lastReadPos := lastReadPos + nread;
        taken := nread;
        assert State().buf == c0.buf + st0.unread[..taken];
        if lastReadPos < HEADER_LEN {
          assert Reads(c0, st0, taken, ReadHalf, State(), sock.stream);
          return ReadHalf;
        }
      }
      ghost var c1, st1 := State(), sock.stream;
      rs := ReadPayload();
      ghost var more: nat :|
        && Reads(c1, st1, more, rs, State(), sock.stream)
        && rs == StatusOf(c1.buf + st1.unread[..more], sock.last);
      ReadsCompose(c0, st0, taken, c1, st1, more, rs, State(), sock.stream);
    }

    /** The second half of GetRequest, with the header in the buffer. */
    method ReadPayload() returns (rs: ReadStatus)
      requires readBuf.Length == READ_BUFFER_SIZE
      requires HEADER_LEN <= lastReadPos <= READ_BUFFER_SIZE && lastWritePos <= |reply|
      requires Partial(readBuf[..lastReadPos]) || lastReadPos == HEADER_LEN
      modifies this, readBuf, sock
      ensures lastReadPos <= readBuf.Length
      ensures rs.ReadHalf? || (rs.ReadAll? && old(lastWritePos) == 0) ==> Valid()
      ensures exists n: nat ::
        && Reads(old(State()), old(sock.stream), n, rs, State(), sock.stream)
        && rs == StatusOf(old(State().buf) + old(sock.stream.unread)[..n], sock.last)
    {
      ghost var c0, st0 := State(), sock.stream;
      NoBytes(c0, st0);
      var requestLen := RequestLen(readBuf[..lastReadPos]);
      if FrameSize(requestLen) > READ_BUFFER_SIZE {
        assert Reads(c0, st0, 0, FullError, State(), sock.stream);
        return FullError;
      }

      var count := if FrameSize(requestLen) >= lastReadPos
                   then FrameSize(requestLen) - lastReadPos
                   else FrameSize(requestLen) - lastReadPos + SIZE_T;
      var nread, again := sock.Read(readBuf, lastReadPos, count);
      if nread == -1 {
        rs := if again then ReadHalf else ReadError;
        assert Reads(c0, st0, 0, rs, State(), sock.stream);
        return;
      } else if nread == 0 {
        assert Reads(c0, st0, 0, ReadClose, State(), sock.stream);
        return ReadClose;
      }
      lastReadPos := lastReadPos + nread;
      ghost var got := State().buf;
      assert got == c0.buf + st0.unread[..nread];
      HeaderStable(c0.buf, st0.unread[..nread]);
      if lastReadPos < HEADER_LEN + requestLen {
        assert Reads(c0, st0, nread, ReadHalf, State(), sock.stream);
        return ReadHalf;
      }
      reply := readBuf[HEADER_LEN..HEADER_LEN + requestLen];
      assert reply == got[HEADER_LEN..];
      lastReadPos := 0;
      assert Reads(c0, st0, nread, ReadAll, State(), sock.stream);
      return ReadAll;
    }

    /** One wake-up of the writer, whatever part of the reply the kernel accepts. */
    method SendReply() returns (ws: WriteStatus)
      requires Valid()
      modifies this, sock
      ensures Valid()
      ensures exists n: nat ::
        Writes(old(State()), old(sock.stream), n, ws, State(), sock.stream)
      ensures ws == match sock.last { case Full => WriteAll case Fault => WriteError case _ => WriteHalf }
    {
      ghost var c0, st0 := State(), sock.stream;
      var nwrite, again := sock.Write(reply[lastWritePos..]);
      if nwrite == -1 {
        ws := if again then WriteHalf else WriteError;
        assert c0.reply[c0.written..c0.written + 0] == [];
        assert Writes(c0, st0, 0, ws, State(), sock.stream);
        return;
      }
      assert reply[lastWritePos..][..nwrite] == reply[lastWritePos..lastWritePos + nwrite];
      lastWritePos := lastWritePos + nwrite;
      if lastWritePos < |reply| {
        assert Writes(c0, st0, nwrite, WriteHalf, State(), sock.stream);
        return WriteHalf;
      }
      reply := [];
      lastWritePos := 0;
      assert Writes(c0, st0, nwrite, WriteAll, State(), sock.stream);
      return WriteAll;
    }
  }

  /** Taking no bytes changes nothing. */
  lemma NoBytes(c: Conn, st: Stream)
    ensures st == Taken(st, 0)
    ensures c == c.(buf := c.buf + st.unread[..0])
  {
    assert c.buf + st.unread[..0] == c.buf;
  }

  /** Reading on after a first read is one longer read. */
  lemma ReadsCompose(c0: Conn, st0: Stream, n: nat, c1: Conn, st1: Stream, m: nat,
                     rs: ReadStatus, c2: Conn, st2: Stream)
    requires n <= |st0.unread|
    requires st1 == Taken(st0, n)
    requires c1 == c0.(buf := c0.buf + st0.unread[..n])
    requires Reads(c1, st1, m, rs, c2, st2)
    ensures Reads(c0, st0, n + m, rs, c2, st2)
    ensures c0.buf + st0.unread[..n + m] == c1.buf + st1.unread[..m]
  {
    var first, second := st0.unread[..n], st1.unread[..m];
    assert first + second == st0.unread[..n + m] && st1.unread[m..] == st0.unread[n + m..];
    Regroup(c0.buf, first, second);
    Regroup(st0.consumed, first, second);
  }
}
