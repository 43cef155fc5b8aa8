/** The control messages of the upgrade: the fixed-size message the sender fills in and sends, the
    receiver's accumulation and parsing of it, and when what is received is what was sent. */
module ControlChannel {
  import opened Coding

  const MSG_DATA_BUF_LEN: nat := 1024
  const REPLY_BUF_LEN: nat := 8
  const TYPE_LEN: nat := 4
  const TRANSFER_LISTEN_FD: nat := 1
  const TRANSFER_SESSION_FD: nat := 3

  datatype SendStatus = SendOk | SendError

  datatype RecvStatus = RecvListenFd(fd: int) | RecvSessionFd(fd: int) | RecvParseError | RecvClose

  /** What a system call on the Unix socket comes to. */
  datatype Outcome = Done(n: nat) | Retry | Failed

  /** Type, data length and data, padded with zeros to the message size. */
  function Message(msgType: nat, data: Bytes): (m: Bytes)
    requires 8 + |data| <= MSG_DATA_BUF_LEN
    ensures |m| == MSG_DATA_BUF_LEN
  {
    Fixed(msgType, 4) + Fixed(|data|, 4) + data + Zeros(MSG_DATA_BUF_LEN - 8 - |data|)
  }

  function Zeros(n: nat): (z: Bytes)
    ensures |z| == n && forall i :: 0 <= i < n ==> z[i] == 0
  {
    seq(n, _ => 0)
  }

  function Ascii(text: string): Bytes {
    seq(|text|, i requires 0 <= i < |text| => text[i] as int % 256)
  }

  function ListenMessage(): Bytes {
    Message(TRANSFER_LISTEN_FD, Ascii("listen fd data"))
  }

  function SessionMessage(): Bytes {
    Message(TRANSFER_SESSION_FD, Ascii("session fd data"))
  }

  // ---------------------------------------------------------------------------------------
  // The socket

  /** A transferred amount: at least one byte and at most the limit, when there is any. */
  function Amount(n: nat, limit: nat): (m: nat)
    ensures m <= limit && (limit > 0 ==> m > 0)
  {
    if 1 <= n <= limit then n else limit
  }

  /** What the next call comes to when it may transfer up to `limit` bytes. */
  function NextCall(outcomes: seq<Outcome>, limit: nat): Outcome {
    if outcomes == [] then Failed
    else match outcomes[0]
      case Done(n) => Done(Amount(n, limit))
      case Retry => Retry
      case Failed => Failed
  }

  function Least(a: nat, b: nat): nat {
    if a < b then a else b
  }

  function Later(outcomes: seq<Outcome>): seq<Outcome> {
    if outcomes == [] then [] else outcomes[1..]
  }

  /** One direction of the socket: bytes in flight, the descriptors that travel with them, and what the
      kernel will make of the coming calls. */
  class UnixSocket {
    var inFlight: Bytes
    var passed: seq<int>
    var outcomes: seq<Outcome>

    constructor (outcomes: seq<Outcome>)
      ensures inFlight == [] && passed == [] && this.outcomes == outcomes
    {
      inFlight, passed, this.outcomes := [], [], outcomes;
    }

    /** What sending the message `m` adds: prefixes of it of the accepted sizes, with one copy of the descriptor
        each. */
    twostate predicate Gained(m: Bytes, fd: int)
      reads this
    {
      var sizes := Accepted(old(outcomes), 0);
      && inFlight == old(inFlight) + Repeated(m, sizes)
      && |passed| == |old(passed)| + |sizes| && AllFrom(passed, |old(passed)|, fd)
    }

    /** sendmsg of the whole buffer: a non-empty prefix of it, with a copy of the descriptor. */
    method SendMsg(buf: array<Byte>, fd: int) returns (r: Outcome)
      requires buf.Length > 0
      modifies this
      ensures r == NextCall(old(outcomes), buf.Length) && outcomes == Later(old(outcomes))
      ensures r.Done? ==> inFlight == old(inFlight) + buf[..r.n] && passed == old(passed) + [fd]
      ensures !r.Done? ==> inFlight == old(inFlight) && passed == old(passed)
    {
      r := NextCall(outcomes, buf.Length);
      outcomes := Later(outcomes);
      if r.Done? {
        inFlight := inFlight + buf[..r.n];
        passed := passed + [fd];
      }
    }

    /** recvmsg into the start of `buf`: a non-empty part of what is in flight, or 0 at end of stream. */
    method RecvMsg(buf: array<Byte>) returns (r: Outcome)
      requires buf.Length > 0
      modifies this, buf
      ensures passed == old(passed) && outcomes == Later(old(outcomes))
      ensures r == NextCall(old(outcomes), Least(buf.Length, |old(inFlight)|))
      ensures r.Done? ==>
        && r.n <= buf.Length && r.n <= |old(inFlight)| && (r.n == 0 <==> old(inFlight) == [])
        && buf[..r.n] == old(inFlight)[..r.n] && inFlight == old(inFlight)[r.n..]
      ensures !r.Done? ==> inFlight == old(inFlight)
    {
      r := NextCall(outcomes, Least(buf.Length, |inFlight|));
      outcomes := Later(outcomes);
      if r.Done? {
        var arrived := inFlight;
        inFlight := arrived[r.n..];
        forall i | 0 <= i < r.n { buf[i] := arrived[i]; }
      }
    }
  }

  // ---------------------------------------------------------------------------------------
  // Sending

  method FillMessage(buf: array<Byte>, msgType: nat, data: Bytes)
    requires buf.Length == MSG_DATA_BUF_LEN && 8 + |data| <= MSG_DATA_BUF_LEN
    modifies buf
    ensures buf[..] == Message(msgType, data)
  {
    forall i | 0 <= i < buf.Length { buf[i] := 0; }
    CopyInto(buf, 0, Fixed(msgType, 4));
    CopyInto(buf, 4, Fixed(|data|, 4));
    CopyInto(buf, 8, data);
    assert buf[8 + |data|..] == Zeros(MSG_DATA_BUF_LEN - 8 - |data|);
    assert buf[..] == buf[..4] + buf[4..8] + buf[8..8 + |data|] + buf[8 + |data|..];
  }

  method CopyInto(buf: array<Byte>, at: nat, bs: Bytes)
    requires at + |bs| <= buf.Length
    modifies buf
    ensures buf[at..at + |bs|] == bs
    ensures forall i :: 0 <= i < buf.Length && !(at <= i < at + |bs|) ==> buf[i] == old(buf[i])
  {
    forall i | 0 <= i < |bs| { buf[at + i] := bs[i]; }
  }

  /** The sizes the send loop has accepted, from the point where `sent` bytes are on their way. */
  function Accepted(outcomes: seq<Outcome>, sent: nat): seq<nat>
    decreases |outcomes|
  {
    if sent >= MSG_DATA_BUF_LEN then []
    else match NextCall(outcomes, MSG_DATA_BUF_LEN)
      case Failed => []
      case Retry => Accepted(Later(outcomes), sent)
      case Done(n) => [n] + Accepted(Later(outcomes), sent + n)
  }

  function Total(sizes: seq<nat>): nat {
    if sizes == [] then 0 else sizes[0] + Total(sizes[1..])
  }

  /** The bytes the loop puts in flight: each send starts again at the beginning of the message. */
  function Repeated(m: Bytes, sizes: seq<nat>): Bytes {
    if sizes == [] then [] else (if sizes[0] <= |m| then m[..sizes[0]] else m) + Repeated(m, sizes[1..])
  }

  /** Sizes that put at least a message's worth of bytes in flight. */
  predicate Fills(sizes: seq<nat>) {
    Total(sizes) >= MSG_DATA_BUF_LEN && forall i :: 0 <= i < |sizes| ==> 1 <= sizes[i] <= MSG_DATA_BUF_LEN
  }

  /** Sizes that end the send loop with success. */
  predicate Completes(sizes: seq<nat>) {
    Fills(sizes) && Total(sizes) == MSG_DATA_BUF_LEN
  }

  lemma {:induction false} AcceptedAreAmounts(outcomes: seq<Outcome>, sent: nat)
    ensures forall i :: 0 <= i < |Accepted(outcomes, sent)| ==> 1 <= Accepted(outcomes, sent)[i] <= MSG_DATA_BUF_LEN
    decreases |outcomes|
  {
    if sent < MSG_DATA_BUF_LEN && outcomes != [] {
      match NextCall(outcomes, MSG_DATA_BUF_LEN) {
        case Failed =>
        case Retry => AcceptedAreAmounts(Later(outcomes), sent);
        case Done(n) => AcceptedAreAmounts(Later(outcomes), sent + n);
      }
    }
  }

  function Transfers(outcomes: seq<Outcome>): nat {
    if outcomes == [] then 0 else (if outcomes[0].Done? then 1 else 0) + Transfers(outcomes[1..])
  }

  /** Interruptions do not stop the send loop, nor how few bytes a call accepts: without a failing call it goes
      on until a message's worth is on its way. */
  lemma {:induction false} SendsWhenAble(outcomes: seq<Outcome>, sent: nat)
    ensures Failed !in outcomes && sent + Transfers(outcomes) >= MSG_DATA_BUF_LEN ==>
      sent + Total(Accepted(outcomes, sent)) >= MSG_DATA_BUF_LEN
    decreases |outcomes|
  {
    if sent < MSG_DATA_BUF_LEN && outcomes != [] {
      match NextCall(outcomes, MSG_DATA_BUF_LEN) {
        case Failed =>
        case Retry => SendsWhenAble(Later(outcomes), sent);
        case Done(n) =>
          SendsWhenAble(Later(outcomes), sent + n);
          assert ([n] + Accepted(Later(outcomes), sent + n))[1..] == Accepted(Later(outcomes), sent + n);
      }
    }
  }

  /** The loop of a transfer, for every behaviour of the kernel: what it puts in flight, with how many copies
      of the descriptor, and how many bytes it counts. */
  method SendLoop(sock: UnixSocket, msgDataBuf: array<Byte>, fd: int) returns (send: nat, failed: bool)
    requires msgDataBuf.Length == MSG_DATA_BUF_LEN
    modifies sock
    ensures sock.Gained(msgDataBuf[..], fd)
    ensures send == Total(Accepted(old(sock.outcomes), 0)) && (failed <==> send < MSG_DATA_BUF_LEN)
  {
    ghost var m, sizes := msgDataBuf[..], Accepted(sock.outcomes, 0);
    send := 0;
    while send < MSG_DATA_BUF_LEN
      invariant sock.inFlight + Repeated(m, Accepted(sock.outcomes, send)) == old(sock.inFlight) + Repeated(m, sizes)
      invariant send + Total(Accepted(sock.outcomes, send)) == Total(sizes)
      invariant |sock.passed| + |Accepted(sock.outcomes, send)| == |old(sock.passed)| + |sizes|
      invariant |old(sock.passed)| <= |sock.passed| && AllFrom(sock.passed, |old(sock.passed)|, fd)
      decreases |sock.outcomes|
    {
      ghost var now, rest := sock.inFlight, Accepted(sock.outcomes, send);
      var r := sock.SendMsg(msgDataBuf, fd);
      match r {
        case Failed =>
          NothingMore(sock.inFlight, m);
          return send, true;
        case Retry =>
        case Done(n) =>
          assert rest[1..] == Accepted(sock.outcomes, send + n);
          Regroup(now, m[..n], Repeated(m, rest[1..]));
          send := send + n;
      }
    }
    NothingMore(sock.inFlight, m);
    failed := false;
  }

  ghost predicate AllFrom(fds: seq<int>, from: nat, fd: int) {
    forall i :: from <= i < |fds| ==> fds[i] == fd
  }

  /** The send half of a transfer. It succeeds exactly when the accepted sizes add up to the message size,
      and waits for a reply exactly then, whatever the reply is. */
  method SendTransfer(sock: UnixSocket, replies: UnixSocket, msgDataBuf: array<Byte>,
                      msgType: nat, data: Bytes, fd: int)
    returns (status: SendStatus)
    requires msgDataBuf.Length == MSG_DATA_BUF_LEN && 8 + |data| <= MSG_DATA_BUF_LEN && sock != replies
    modifies sock, replies, msgDataBuf
    ensures sock.Gained(Message(msgType, data), fd)
    ensures status == SendOk <==> Completes(Accepted(old(sock.outcomes), 0))
    ensures if status == SendOk then replies.outcomes == Later(old(replies.outcomes)) else unchanged(replies)
  {
    AcceptedAreAmounts(sock.outcomes, 0);
    FillMessage(msgDataBuf, msgType, data);
    var send, failed := SendLoop(sock, msgDataBuf, fd);
    if failed || send != MSG_DATA_BUF_LEN {
      return SendError;
    }
    var replied := GetReply(replies);
    return SendOk;
  }

  lemma NothingMore(inFlight: Bytes, m: Bytes)
    ensures inFlight + Repeated(m, []) == inFlight
  {
  }

  /** The sender waits for one recvmsg and does not look at what it came to. */
  method GetReply(replies: UnixSocket) returns (ok: bool)
    modifies replies
    ensures ok && replies.outcomes == Later(old(replies.outcomes)) && replies.passed == old(replies.passed)
  {
    var msgReplyBuf := new Byte[REPLY_BUF_LEN];
    var r := replies.RecvMsg(msgReplyBuf);
    return true;
  }

  // ---------------------------------------------------------------------------------------
  // Receiving

  /** What the receiver does with a request: only the type at its start decides. */
  function Dispatched(request: Bytes, fd: int): RecvStatus
    requires |request| >= TYPE_LEN
  {
    var msgType := Value(request[..TYPE_LEN]);
    if msgType == TRANSFER_LISTEN_FD then RecvListenFd(fd)
    else if msgType == TRANSFER_SESSION_FD then RecvSessionFd(fd)
    else RecvParseError
  }

  /** Whether the receive loop gets a message's worth together, when `left` bytes are in flight and `read` have
      been read: a call that fails, or finds nothing left, ends it. */
  predicate Completed(outcomes: seq<Outcome>, left: nat, read: nat)
    decreases |outcomes|
  {
    read >= MSG_DATA_BUF_LEN ||
    match NextCall(outcomes, Least(MSG_DATA_BUF_LEN, left))
    case Failed => false
    case Retry => Completed(Later(outcomes), left, read)
    case Done(n) => n > 0 && Completed(Later(outcomes), left - n, read + n)
  }

  /** The receive half, for any bytes in flight: however recvmsg cuts them up, once a message's worth has
      arrived it is dispatched on its first bytes; and that happens exactly when no call fails and the stream
      does not end before. */
  method ProcessRecv(sock: UnixSocket, msgDataBuf: array<Byte>, fd: int) returns (status: RecvStatus)
    requires msgDataBuf.Length == MSG_DATA_BUF_LEN
    requires AllFrom(sock.passed, 0, fd) && (sock.inFlight != [] ==> sock.passed != [])
    modifies sock, msgDataBuf
    ensures status != RecvClose <==> Completed(old(sock.outcomes), |old(sock.inFlight)|, 0)
    ensures status != RecvClose ==>
      |old(sock.inFlight)| >= MSG_DATA_BUF_LEN && status == Dispatched(old(sock.inFlight), fd)
  {
    ghost var all, calls := sock.inFlight, sock.outcomes;
    var read := 0;
    var requestStr: Bytes := [];
    while read < MSG_DATA_BUF_LEN
      invariant read == |requestStr| <= |all| && requestStr == all[..read] && sock.inFlight == all[read..]
      invariant sock.passed == old(sock.passed)
      invariant Completed(sock.outcomes, |sock.inFlight|, read) == Completed(calls, |all|, 0)
      decreases |sock.outcomes|
    {
      var r := sock.RecvMsg(msgDataBuf);
      if r.Failed? || r == Done(0) { return RecvClose; }
      if r.Done? {
        assert all[..read] + all[read..][..r.n] == all[..read + r.n];
        requestStr := requestStr + msgDataBuf[..r.n];
        read := read + r.n;
      }
    }
    var received := sock.passed[0];
    var msgType := Value(requestStr[..TYPE_LEN]);
    assert requestStr[..TYPE_LEN] == all[..TYPE_LEN];
    if msgType == TRANSFER_LISTEN_FD {
      return RecvListenFd(received);
    } else if msgType == TRANSFER_SESSION_FD {
      return RecvSessionFd(received);
    }
    return RecvParseError;
  }

  /** What the receiver depends on: it never completes with too few bytes in flight; and with enough of them,
      and no failing call, interruptions do not matter, nor how few bytes a call yields. */
  lemma {:induction false} CompletedWhenEnough(outcomes: seq<Outcome>, left: nat, read: nat)
    ensures Completed(outcomes, left, read) ==> left + read >= MSG_DATA_BUF_LEN
    ensures left + read >= MSG_DATA_BUF_LEN && Failed !in outcomes && read + Transfers(outcomes) >= MSG_DATA_BUF_LEN ==>
      Completed(outcomes, left, read)
    decreases |outcomes|
  {
    if read < MSG_DATA_BUF_LEN && outcomes != [] {
      match NextCall(outcomes, Least(MSG_DATA_BUF_LEN, left)) {
        case Failed =>
        case Retry => CompletedWhenEnough(Later(outcomes), left, read);
        case Done(n) => CompletedWhenEnough(Later(outcomes), left - n, read + n);
      }
    }
  }

  // ---------------------------------------------------------------------------------------
  // When a transfer arrives

  lemma SmallFixed(n: nat)
    requires n < 256
    ensures Fixed(n, 4) == [n, 0, 0, 0]
  {
    assert Fixed(0, 1) == [0];
    assert Fixed(0, 2) == [0, 0];
    assert Fixed(0, 3) == [0, 0, 0];
  }

  lemma {:induction false} RepeatedLength(m: Bytes, sizes: seq<nat>)
    requires forall i :: 0 <= i < |sizes| ==> sizes[i] <= |m|
    ensures |Repeated(m, sizes)| == Total(sizes)
  {
    if sizes != [] { RepeatedLength(m, sizes[1..]); }
  }

  /** The first send puts a prefix of the message in flight, and the second starts at its first byte. */
  lemma RepeatedHead(m: Bytes, sizes: seq<nat>)
    requires |m| == MSG_DATA_BUF_LEN && Fills(sizes)
    ensures sizes != [] && |Repeated(m, sizes)| == Total(sizes)
    ensures forall i :: 0 <= i < sizes[0] ==> Repeated(m, sizes)[i] == m[i]
    ensures sizes[0] < MSG_DATA_BUF_LEN ==> Repeated(m, sizes)[sizes[0]] == m[0]
  {
    RepeatedLength(m, sizes);
    var rest := sizes[1..];
    if sizes[0] < MSG_DATA_BUF_LEN {
      assert rest != [] && rest[0] == sizes[1];
      assert Repeated(m, rest)[0] == m[0];
    }
  }

  lemma FourBytes(bs: Bytes)
    requires |bs| == 4
    ensures
      var b: int, c: int, d: int, e: int := bs[0], bs[1], bs[2], bs[3];
      Value(bs) == b + 256 * c + 65536 * d + 16777216 * e
  {
    var tail := bs[1..][1..][1..];
    assert tail[1..] == [];
    assert Value(tail) == tail[0];
    assert Value(bs[1..][1..]) == bs[2] + 256 * Value(tail);
    assert Value(bs[1..]) == bs[1] + 256 * Value(bs[1..][1..]);
  }

  /** What the receiver makes of a message that arrives whole. */
  function Expected(msgType: nat, fd: int): RecvStatus {
    if msgType == TRANSFER_LISTEN_FD then RecvListenFd(fd)
    else if msgType == TRANSFER_SESSION_FD then RecvSessionFd(fd)
    else RecvParseError
  }

  /** The exact condition: a message's worth in flight is dispatched on the type it was sent with if and only
      if the first send took the whole type; otherwise the receiver finds no type it knows, and the session is
      lost although the sender may report success. */
  lemma DispatchedAsSent(msgType: nat, data: Bytes, sizes: seq<nat>, fd: int)
    requires 1 <= msgType < 256 && 8 + |data| <= MSG_DATA_BUF_LEN && Fills(sizes)
    ensures
      var stream := Repeated(Message(msgType, data), sizes);
      && |stream| == Total(sizes) && sizes != []
      && (Value(stream[..TYPE_LEN]) == msgType <==> sizes[0] >= TYPE_LEN)
      && Dispatched(stream, fd) == if sizes[0] >= TYPE_LEN then Expected(msgType, fd) else RecvParseError
  {
    var m := Message(msgType, data);
    var stream := Repeated(m, sizes);
    RepeatedHead(m, sizes);
    SmallFixed(msgType);
    var head := stream[..TYPE_LEN];
    FourBytes(head);
    assert m[0] == msgType && m[1] == 0 && m[2] == 0 && m[3] == 0;
    assert stream[0] == msgType;
    if sizes[0] < TYPE_LEN {
      assert head[sizes[0]] == msgType;
    }
  }

  /** The two messages carry the types 1 and 3, and each is dispatched as what it is when it arrives whole. */
  lemma WholeMessagesAreDispatched(fd: int)
    ensures Value(ListenMessage()[..TYPE_LEN]) == 1 && Value(SessionMessage()[..TYPE_LEN]) == 3
    ensures Dispatched(ListenMessage(), fd) == RecvListenFd(fd)
    ensures Dispatched(SessionMessage(), fd) == RecvSessionFd(fd)
  {
    SmallFixed(1);
    SmallFixed(3);
    FourBytes(ListenMessage()[..TYPE_LEN]);
    FourBytes(SessionMessage()[..TYPE_LEN]);
  }

  /** Such a run of the send loop: one byte is accepted, then the rest of the count. The sender is content
      with either message, and the receiver cannot parse it. */
  lemma PartialFirstSendIsLost(fd: int)
    ensures
      var sizes := Accepted([Done(1), Done(1023)], 0);
      var listener := Repeated(ListenMessage(), sizes);
      var session := Repeated(SessionMessage(), sizes);
      && Completes(sizes) && |listener| == |session| == MSG_DATA_BUF_LEN
      && Dispatched(listener, fd) == Dispatched(session, fd) == RecvParseError
  {
    var sizes := Accepted([Done(1), Done(1023)], 0);
    assert Later([Done(1), Done(1023)]) == [Done(1023)];
    assert Accepted([Done(1023)], 1) == [1023] + Accepted([], 1024);
    assert sizes == [1, 1023] && sizes[1..] == [1023] && [1023][1..] == [];
    assert Total([1023]) == 1023;
    DispatchedAsSent(TRANSFER_LISTEN_FD, Ascii("listen fd data"), sizes, fd);
    DispatchedAsSent(TRANSFER_SESSION_FD, Ascii("session fd data"), sizes, fd);
  }

  /** A run that overshoots: the sender reports an error, and the receiver has the session all the same. */
  lemma OverrunIsDelivered(fd: int)
    ensures
      var sizes := Accepted([Done(1000), Done(1000)], 0);
      var session := Repeated(SessionMessage(), sizes);
      && !Completes(sizes) && |session| == 2000 && Dispatched(session, fd) == RecvSessionFd(fd)
  {
    var sizes := Accepted([Done(1000), Done(1000)], 0);
    assert Later([Done(1000), Done(1000)]) == [Done(1000)];
    assert Accepted([Done(1000)], 1000) == [1000] + Accepted([], 2000);
    assert sizes == [1000, 1000] && sizes[1..] == [1000] && [1000][1..] == [];
    assert Total([1000]) == 1000;
    DispatchedAsSent(TRANSFER_SESSION_FD, Ascii("session fd data"), sizes, fd);
  }

  /** The first byte of `m` occurs nowhere else in it. */
  predicate HeadIsUnique(m: Bytes) {
    forall k :: 0 < k < |m| ==> m[k] != m[0]
  }

  /** Byte for byte, a completed transfer is the message if and only if the first send took all of it. */
  lemma IntactExactly(m: Bytes, sizes: seq<nat>)
    requires |m| == MSG_DATA_BUF_LEN && HeadIsUnique(m) && Completes(sizes)
    ensures sizes != [] && (Repeated(m, sizes) == m <==> sizes[0] == MSG_DATA_BUF_LEN)
  {
    RepeatedHead(m, sizes);
    if sizes[0] == MSG_DATA_BUF_LEN {
      assert Repeated(m, sizes) == m;
    }
  }

  /** The two messages that are sent are of that kind. */
  lemma TransfersHaveUniqueHeads()
    ensures HeadIsUnique(ListenMessage())
    ensures HeadIsUnique(SessionMessage())
  {
    UniqueHead(TRANSFER_LISTEN_FD, "listen fd data");
    UniqueHead(TRANSFER_SESSION_FD, "session fd data");
  }

  lemma UniqueHead(msgType: nat, text: string)
    requires 0 < msgType < |text| < 256 && forall i :: 0 <= i < |text| ==> msgType < text[i] as int < 256
    ensures HeadIsUnique(Message(msgType, Ascii(text)))
  {
    SmallFixed(msgType);
    SmallFixed(|text|);
    var m := Message(msgType, Ascii(text));
    forall k | 0 < k < |m| ensures m[k] != m[0] {
      assert 8 <= k < 8 + |text| ==> m[k] == Ascii(text)[k - 8] == text[k - 8] as int;
      assert k >= 8 + |text| ==> m[k] == 0;
    }
  }

  // ---------------------------------------------------------------------------------------
  // Both ends

  /** The sender of an upgrade: its buffer and the two directions of its socket. */
  class UnixClient {
    const sock: UnixSocket
    const replies: UnixSocket
    const msgDataBuf: array<Byte>

    ghost predicate Valid() {
      sock != replies && msgDataBuf.Length == MSG_DATA_BUF_LEN
    }

    constructor (sock: UnixSocket, replies: UnixSocket)
      requires sock != replies
      ensures Valid() && fresh(msgDataBuf) && this.sock == sock && this.replies == replies
    {
      this.sock, this.replies := sock, replies;
      msgDataBuf := new Byte[MSG_DATA_BUF_LEN];
    }

    method TransferListenFd(fd: int) returns (status: SendStatus)
      requires Valid()
      modifies sock, replies, msgDataBuf
      ensures sock.Gained(ListenMessage(), fd)
      ensures status == SendOk <==> Completes(Accepted(old(sock.outcomes), 0))
      ensures if status == SendOk then replies.outcomes == Later(old(replies.outcomes)) else unchanged(replies)
    {
      status := SendTransfer(sock, replies, msgDataBuf, TRANSFER_LISTEN_FD, Ascii("listen fd data"), fd);
    }

    method TransferSessionFd(fd: int) returns (status: SendStatus)
      requires Valid()
      modifies sock, replies, msgDataBuf
      ensures sock.Gained(SessionMessage(), fd)
      ensures status == SendOk <==> Completes(Accepted(old(sock.outcomes), 0))
      ensures if status == SendOk then replies.outcomes == Later(old(replies.outcomes)) else unchanged(replies)
    {
      status := SendTransfer(sock, replies, msgDataBuf, TRANSFER_SESSION_FD, Ascii("session fd data"), fd);
    }
  }

  /** A transfer from end to end, for every behaviour of the kernel on both ends; `receiving` is the receiver's.
      What the receiver gets depends on the first accepted send alone, and not on what the sender reports. */
  method Transfer(sock: UnixSocket, replies: UnixSocket, sendBuf: array<Byte>, recvBuf: array<Byte>,
                  receiving: seq<Outcome>, msgType: nat, data: Bytes, fd: int)
    returns (sent: SendStatus, received: RecvStatus)
    requires sendBuf.Length == recvBuf.Length == MSG_DATA_BUF_LEN && sock != replies
    requires 1 <= msgType < 256 && 8 + |data| <= MSG_DATA_BUF_LEN && sock.inFlight == [] && sock.passed == []
    modifies sock, replies, sendBuf, recvBuf
    ensures
      var sizes := Accepted(old(sock.outcomes), 0);
      && (sent == SendOk <==> Completes(sizes))
      && (received != RecvClose <==> Completed(receiving, Total(sizes), 0))
      && (received != RecvClose ==> Fills(sizes) && sizes != [])
      && (received != RecvClose ==>
            received == if sizes[0] >= TYPE_LEN then Expected(msgType, fd) else RecvParseError)
  {
    ghost var sizes, m := Accepted(sock.outcomes, 0), Message(msgType, data);
    AcceptedAreAmounts(sock.outcomes, 0);
    RepeatedLength(m, sizes);
    sent := SendTransfer(sock, replies, sendBuf, msgType, data, fd);
    assert sock.inFlight == Repeated(m, sizes);
    sock.outcomes := receiving;
    received := ProcessRecv(sock, recvBuf, fd);
    if received != RecvClose {
      DispatchedAsSent(msgType, data, sizes, fd);
    }
  }
}
