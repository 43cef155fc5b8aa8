/** One connection of the echo server, as values: what its server-side buffers hold, what its
    byte stream has carried, and what the two event handlers may do to them. */
module Echo {
  import opened Coding
  import opened Frames

  datatype ReadStatus = ReadHalf | ReadAll | ReadError | ReadClose | FullError

  datatype WriteStatus = WriteHalf | WriteAll | WriteError

  /** The epoll interest of a connection. */
  datatype Interest = In | Out

  /** `buf` is the filled part of the read buffer, `written` how much of `reply` has been sent. */
  datatype Conn = Conn(buf: Bytes, reply: Bytes, written: nat)

  const FRESH := Conn([], [], 0)

  /** The client's end of a connection: open, closed for sending in good order, or gone. */
  datatype Link = Up | Shut | Broken

  /** A TCP stream: bytes the kernel holds for the server, bytes the server has read so far,
      and bytes the server has had accepted for the client. */
  datatype Stream = Stream(unread: Bytes, consumed: Bytes, sent: Bytes, link: Link)

  const NEW_STREAM := Stream([], [], [], Up)

  /** The stream after the server has taken `n` bytes. */
  function Taken(st: Stream, n: nat): Stream
    requires n <= |st.unread|
  {
    st.(unread := st.unread[n..], consumed := st.consumed + st.unread[..n])
  }

  /** An entry of the connection map together with its epoll registration. */
  datatype Entry = Entry(conn: Conn, interest: Interest)

  const ACCEPTED := Entry(FRESH, In)

  /** What becomes of the entry after an input event; `None` when the server closes it. */
  function AfterRead(conn: Conn, rs: ReadStatus): Option<Entry> {
    match rs
    case ReadAll => Some(Entry(conn, Out))
    case ReadHalf => Some(Entry(conn, In))
    case _ => None
  }

  function AfterWrite(conn: Conn, ws: WriteStatus): Option<Entry> {
    match ws
    case WriteAll => Some(Entry(conn, In))
    case WriteHalf => Some(Entry(conn, Out))
    case WriteError => None
  }

  /** One call of GetRequest that takes `n` bytes from the stream and ends with `rs`. It gives the session up
      only for a header it rejects, at the end of a stream that the client has closed, or on a broken one. */
  predicate Reads(c: Conn, st: Stream, n: nat, rs: ReadStatus, c': Conn, st': Stream) {
    && n <= |st.unread|
    && st' == Taken(st, n)
    && var got := c.buf + st.unread[..n];
       match rs
         case ReadAll => IsFrame(got) && c' == c.(buf := [], reply := got[HEADER_LEN..])
         case ReadHalf => Partial(got) && c' == c.(buf := got)
         case FullError =>
           && |got| >= HEADER_LEN
           && (RequestLen(got) + HEADER_LEN > READ_BUFFER_SIZE || RequestLen(got) + HEADER_LEN < 0)
           && c' == c.(buf := got)
         case ReadClose =>
           && !HasFrame(got) && c' == c.(buf := got)
           && ((|got| >= HEADER_LEN && RequestLen(got) == 0) || (st.link != Up && st'.unread == []))
         case ReadError =>
           && !HasFrame(got) && c' == c.(buf := got)
           && ((|got| >= HEADER_LEN && 0 <= RequestLen(got) + HEADER_LEN < HEADER_LEN) || st.link == Broken)
  }

  /** One call of SendReply that has `n` more bytes accepted and ends with `ws`. */
  predicate Writes(c: Conn, st: Stream, n: nat, ws: WriteStatus, c': Conn, st': Stream) {
    && c.written + n <= |c.reply|
    && st' == st.(sent := st.sent + c.reply[c.written..c.written + n])
    && match ws
         case WriteAll => c.written + n == |c.reply| && c' == c.(reply := [], written := 0)
         case WriteHalf => (n == 0 || c.written + n < |c.reply|) && c' == c.(written := c.written + n)
         case WriteError => n == 0 && c' == c && st.link == Broken
  }

  /** The bytes a faithful echo of `st` would have sent for everything read so far. */
  function Owed(st: Stream): Bytes {
    Concat(Decode(st.consumed))
  }

  /** Everything the client has put on the stream. */
  function Arrived(st: Stream): Bytes {
    st.consumed + st.unread
  }

  /** The echo invariant: the buffer is the undecoded remainder of what was read, and what has
      been sent plus the unsent part of the reply is what is owed. While the server waits for
      input there is no reply at all. */
  predicate Echoes(c: Conn, st: Stream, mode: Interest) {
    && c.buf == Rest(st.consumed)
    && Partial(c.buf)
    && c.written <= |c.reply|
    && st.sent + c.reply[c.written..] == Owed(st)
    && (mode == In ==> c.reply == [] && c.written == 0)
    && (mode == Out ==> c.buf == [])
  }

  /** The causes for which a session may be over: the connection is gone, the client sent a header that the
      server rejects, or the client closed its end and everything it sent has been read and answered. */
  predicate Over(st: Stream) {
    || st.link == Broken
    || Rejects(Rest(st.consumed))
    || (st.link == Shut && st.unread == [] && st.sent == Owed(st))
  }

  /** What the client is promised even after the connection is gone. */
  predicate Faithful(st: Stream) {
    st.sent <= Owed(st)
  }

  lemma FreshEchoes()
    ensures Echoes(FRESH, NEW_STREAM, In)
  {
    assert !HasFrame([]);
  }

  lemma EchoesFaithful(c: Conn, st: Stream, mode: Interest)
    requires Echoes(c, st, mode)
    ensures Faithful(st)
    ensures mode == In ==> st.sent == Owed(st)
  {
    assert st.sent <= st.sent + c.reply[c.written..];
  }

  /** More input never takes anything back. */
  lemma FaithfulToArrived(st: Stream)
    requires Faithful(st)
    ensures st.sent <= Concat(Decode(Arrived(st)))
  {
    EchoMonotone(st.consumed, st.unread);
  }

  /** A call of GetRequest in read mode keeps the invariant, moving to write mode exactly on a
      whole frame; on any other outcome what was sent stays a faithful echo, and there is a cause. */
  lemma ReadsKeepEcho(c: Conn, st: Stream, n: nat, rs: ReadStatus, c': Conn, st': Stream)
    requires Echoes(c, st, In)
    requires Reads(c, st, n, rs, c', st')
    ensures rs == ReadAll ==> Echoes(c', st', Out)
    ensures rs == ReadHalf ==> Echoes(c', st', In)
    ensures rs != ReadAll && rs != ReadHalf ==> Over(st')
    ensures Faithful(st')
  {
    var more := st.unread[..n];
    var got := c.buf + more;
    DecodeExtend(st.consumed, more);
    ConcatPlus(Decode(st.consumed), Decode(got));
    if rs == ReadAll {
      DecodeOneFrame(got);
      assert Concat([got[HEADER_LEN..]]) == got[HEADER_LEN..];
      assert c'.reply[0..] == c'.reply;
    }
    assert st.sent + [] == st.sent;
  }

  /** The replies are the frames: a call that ends with a whole request adds that request's payload to
      what the stream decodes to, and no other call adds any. */
  lemma ReadsDecode(c: Conn, st: Stream, n: nat, rs: ReadStatus, c': Conn, st': Stream)
    requires c.buf == Rest(st.consumed) && Reads(c, st, n, rs, c', st')
    ensures Decode(st'.consumed) == Decode(st.consumed) + if rs == ReadAll then [c'.reply] else []
  {
    var more := st.unread[..n];
    DecodeExtend(st.consumed, more);
    if rs == ReadAll {
      DecodeOneFrame(c.buf + more);
    } else {
      NoFrameUnlessAll(c, st, n, rs, c', st');
    }
  }

  /** Only a whole request ends a call with a frame in the buffer. */
  lemma NoFrameUnlessAll(c: Conn, st: Stream, n: nat, rs: ReadStatus, c': Conn, st': Stream)
    requires Reads(c, st, n, rs, c', st') && rs != ReadAll
    ensures !HasFrame(c.buf + st.unread[..n])
  {
  }

  /** Sending more of the reply leaves what was sent and what is still to send together the same. */
  lemma SentOn(sent: Bytes, reply: Bytes, written: nat, n: nat)
    requires written + n <= |reply|
    ensures (sent + reply[written..written + n]) + reply[written + n..] == sent + reply[written..]
    ensures sent + reply[written..written + n] <= sent + reply[written..]
  {
    assert reply[written..] == reply[written..written + n] + reply[written + n..];
    Regroup(sent, reply[written..written + n], reply[written + n..]);
  }

  lemma WritesKeepEcho(c: Conn, st: Stream, n: nat, ws: WriteStatus, c': Conn, st': Stream)
    requires Echoes(c, st, Out)
    requires Writes(c, st, n, ws, c', st')
    ensures ws == WriteAll ==> Echoes(c', st', In)
    ensures ws != WriteAll ==> Echoes(c', st', Out)
    ensures Faithful(st')
  {
    SentOn(st.sent, c.reply, c.written, n);
    assert Owed(st') == Owed(st);
    if ws == WriteAll {
      assert c.reply[c.written + n..] == [] == c'.reply[c'.written..];
    }
  }
}
