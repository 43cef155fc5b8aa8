/** The event dispatch of one server process over its connection objects: every event it handles
    is a step that the step system of the upgrade allows, on that one session alone. */
module Server {
  import opened Coding
  import opened Echo
  import opened Frames
  import opened InetConnection
  import opened ControlChannel

  /** A fired event. Epoll reports input or output only as registered, errors always. */
  datatype Event = Event(readable: bool, writable: bool, failed: bool)

  class EventLoop {
    var conns: map<int, InetConn>       // inet_conn_map
    var interest: map<int, Interest>    // epoll registrations of the sessions
    var upgrading: bool                 // unix_client != NULL
    var transferred: seq<int>           // descriptors sent to the peer with success, in order

    ghost predicate Valid()
      reads this, conns.Values, set c <- conns.Values :: c.readBuf
    {
      ValidBut({})
    }

    /** The invariant, except for the contents of the connections in `skip`. */
    ghost predicate ValidBut(skip: set<int>)
      reads this, conns.Values, set c <- conns.Values :: c.readBuf
    {
      && conns.Keys == interest.Keys
      && (forall fd <- conns :: fd !in skip ==> InMode(conns[fd], interest[fd]))
      && (forall a <- conns, b <- conns :: a != b ==> Disjoint(conns[a], conns[b]))
    }

    /** A connection waits for input only with no reply under way. */
    static ghost predicate InMode(conn: InetConn, mode: Interest)
      reads conn, conn.readBuf
    {
      conn.Valid() && (mode == In ==> conn.reply == [] && conn.lastWritePos == 0)
    }

    static ghost predicate Disjoint(a: InetConn, b: InetConn) {
      a != b && a.sock != b.sock && a.readBuf != b.readBuf
    }

    ghost function EntryOf(fd: int): Entry
      reads this, conns.Values, set c <- conns.Values :: c.readBuf
      requires fd in conns && fd in interest && conns[fd].lastReadPos <= conns[fd].readBuf.Length
    {
      Entry(conns[fd].State(), interest[fd])
    }

    /** The client's buffer is none of the connections'. */
    ghost predicate Apart(client: UnixClient)
      reads this, conns.Values
    {
      client.Valid() && forall fd <- conns :: conns[fd].readBuf != client.msgDataBuf
    }

    /** What the control channel and the record of transfers gain: the message with the descriptor if it is sent
        away, and nothing otherwise. */
    twostate predicate Transferring(client: UnixClient, fd: int, sends: bool)
      reads this, client.sock
    {
      if sends then
        && client.sock.Gained(SessionMessage(), fd)
        && transferred == old(transferred) + if Completes(Accepted(old(client.sock.outcomes), 0)) then [fd] else []
      else unchanged(client.sock) && transferred == old(transferred)
    }

    constructor ()
      ensures Valid() && conns == map[] && !upgrading && transferred == []
    {
      conns, interest, upgrading, transferred := map[], map[], false, [];
    }

    /** Register an accepted or received descriptor. */
    method Attach(fd: int, sock: Socket)
      requires Valid() && fd !in conns
      requires forall other <- conns :: conns[other].sock != sock
      modifies this
      ensures Valid()
      ensures conns.Keys == old(conns.Keys) + {fd} && conns[fd].sock == sock
      ensures EntryOf(fd) == ACCEPTED
      ensures forall other <- old(conns) ::
        conns[other] == old(conns[other]) && EntryOf(other) == old(EntryOf(other))
      ensures upgrading == old(upgrading) && transferred == old(transferred)
    {
      var conn := new InetConn(sock);
      conns := conns[fd := conn];
      interest := interest[fd := In];
    }

    /** handle_net_event: -1 when the caller must close the descriptor. While upgrading, input at
        a request boundary makes it transfer the descriptor, and the session is closed here whether or not that
        succeeds; on no other event does it send anything. */
    method HandleNetEvent(fd: int, ev: Event, client: UnixClient) returns (ret: int)
      requires Valid() && fd in conns && Apart(client)
      requires ev.readable ==> interest[fd] == In
      requires ev.writable ==> interest[fd] == Out
      modifies this, conns[fd], conns[fd].readBuf, conns[fd].sock, client.sock, client.replies, client.msgDataBuf
      ensures conns == old(conns) && upgrading == old(upgrading) && conns.Keys == interest.Keys
      ensures forall other <- conns :: other != fd ==> interest[other] == old(interest[other])
      ensures conns[fd].lastReadPos <= conns[fd].readBuf.Length
      ensures ret == 0 || ret == -1
      ensures ret == 0 ==> InMode(conns[fd], interest[fd])
      ensures Served(old(EntryOf(fd)), old(conns[fd].sock.stream), ev, upgrading,
        if ret == 0 then Some(EntryOf(fd)) else None, conns[fd].sock.stream)
      ensures Transferring(client, fd, HandsOff(old(EntryOf(fd)), ev, upgrading))
    {
      if ev.failed {
        return -1;
      }
      var conn := conns[fd];
      var empty := conn.EmptyReadBuf();
      if ev.readable && empty && upgrading {
        var sms := client.TransferSessionFd(fd);
        if sms == SendOk {
          transferred := transferred + [fd];
        }
        return -1;
      }
      ret := 0;
      if ev.readable {
        var next := OnReadable(conn);
        if next.Some? {
          interest := interest[fd := next.value];
        } else {
          ret := -1;
        }
      } else if ev.writable {
        var next := OnWritable(conn);
        if next.Some? {
          interest := interest[fd := next.value];
        } else {
          ret := -1;
        }
      }
    }

    /** The input branch: the interest to wait for next, or none when the connection must be closed. */
    static method OnReadable(conn: InetConn) returns (next: Option<Interest>)
      requires conn.Valid() && conn.reply == [] && conn.lastWritePos == 0
      modifies conn, conn.readBuf, conn.sock
      ensures conn.lastReadPos <= conn.readBuf.Length && (next.Some? ==> conn.Valid())
      ensures next == Some(In) ==> conn.reply == [] && conn.lastWritePos == 0
      ensures AfterInput(old(conn.State()), old(conn.sock.stream), Registered(conn.State(), next), conn.sock.stream)
    {
      ghost var c0, st0 := conn.State(), conn.sock.stream;
      var rs := conn.GetRequest();
      ghost var n: nat :| Reads(c0, st0, n, rs, conn.State(), conn.sock.stream);
      next := None;
      if rs == ReadAll {
        next := Some(Out);
      } else if rs == ReadHalf {
        next := Some(In);
      }
      assert AfterRead(conn.State(), rs) == Registered(conn.State(), next);
    }

    /** The output branch. */
    static method OnWritable(conn: InetConn) returns (next: Option<Interest>)
      requires conn.Valid()
      modifies conn, conn.sock
      ensures conn.Valid()
      ensures next == Some(In) ==> conn.reply == [] && conn.lastWritePos == 0
      ensures AfterOutput(old(conn.State()), old(conn.sock.stream), Registered(conn.State(), next), conn.sock.stream)
    {
      ghost var c0, st0 := conn.State(), conn.sock.stream;
      var ws := conn.SendReply();
      ghost var n: nat :| Writes(c0, st0, n, ws, conn.State(), conn.sock.stream);
      next := None;
      if ws == WriteAll {
        next := Some(In);
      } else if ws == WriteHalf {
        next := Some(Out);
      }
      assert AfterWrite(conn.State(), ws) == Registered(conn.State(), next);
    }

    /** Serving one session leaves every other session alone. */
    method ServeOne(fd: int, ev: Event, client: UnixClient) returns (ret: int)
      requires Valid() && fd in conns && Apart(client)
      requires ev.readable ==> interest[fd] == In
      requires ev.writable ==> interest[fd] == Out
      modifies this, conns[fd], conns[fd].readBuf, conns[fd].sock, client.sock, client.replies, client.msgDataBuf
      ensures conns == old(conns) && upgrading == old(upgrading)
      ensures ret == 0 || ret == -1
      ensures ValidBut(if ret == 0 then {} else {fd})
      ensures conns[fd].lastReadPos <= conns[fd].readBuf.Length
      ensures forall other <- conns :: other != fd ==>
        && EntryOf(other) == old(EntryOf(other))
        && conns[other].sock.stream == old(conns[other].sock.stream)
      ensures Served(old(EntryOf(fd)), old(conns[fd].sock.stream), ev, upgrading,
        if ret == 0 then Some(EntryOf(fd)) else None, conns[fd].sock.stream)
      ensures Transferring(client, fd, HandsOff(old(EntryOf(fd)), ev, upgrading))
    {
      ret := HandleNetEvent(fd, ev, client);
    }

    /** The main loop's handling of a session event: serve it and, when told to, deregister, close
        and forget the descriptor. All other sessions stay as they are. */
    method Dispatch(fd: int, ev: Event, client: UnixClient) returns (closed: bool)
      requires Valid() && Apart(client)
      requires fd in conns && ev.readable ==> interest[fd] == In
      requires fd in conns && ev.writable ==> interest[fd] == Out
      modifies this, client.sock, client.replies, client.msgDataBuf
      modifies if fd in conns then {conns[fd], conns[fd].readBuf, conns[fd].sock} else {}
      ensures Valid() && upgrading == old(upgrading)
      ensures closed ==> conns == old(conns) - {fd}
      ensures !closed ==> conns == old(conns) && fd in conns
      ensures fd !in old(conns) ==> closed
      ensures forall other <- old(conns) :: other != fd ==>
        && EntryOf(other) == old(EntryOf(other))
        && conns[other].sock.stream == old(conns[other].sock.stream)
      ensures fd in old(conns) ==> Served(old(EntryOf(fd)), old(conns[fd].sock.stream), ev, old(upgrading),
        if closed then None else Some(EntryOf(fd)), old(conns[fd]).sock.stream)
      ensures Transferring(client, fd, fd in old(conns) && HandsOff(old(EntryOf(fd)), ev, old(upgrading)))
    {
      if fd !in conns {
        return true;
      }
      var ret := ServeOne(fd, ev, client);
      closed := ret == -1;
      if closed {
        Forget(fd);
      }
    }

    /** Deregister a descriptor and erase its connection. */
    method Forget(fd: int)
      requires fd in conns && ValidBut({fd})
      modifies `conns, `interest
      ensures Valid() && conns == old(conns) - {fd}
      ensures forall other <- conns :: EntryOf(other) == old(EntryOf(other))
    {
      conns := conns - {fd};
      interest := interest - {fd};
    }
  }

  /** The events on which an upgrading process sends the descriptor away. */
  predicate HandsOff(e: Entry, ev: Event, upgrading: bool) {
    !ev.failed && ev.readable && e.conn.buf == [] && upgrading
  }

  /** What one event may do to the session it is for; `kept` is `None` when it is closed here. */
  ghost predicate Served(e: Entry, st: Stream, ev: Event, upgrading: bool, kept: Option<Entry>, st': Stream) {
    if ev.failed || HandsOff(e, ev, upgrading) then kept == None && st' == st
    else if ev.readable then AfterInput(e.conn, st, kept, st')
    else if ev.writable then AfterOutput(e.conn, st, kept, st')
    else kept == Some(e) && st' == st
  }

  /** Without an error event, a hand-off, a rejected header or the end of the stream the session is kept. */
  lemma ClosesForCause(e: Entry, st: Stream, ev: Event, upgrading: bool, kept: Option<Entry>, st': Stream)
    requires Served(e, st, ev, upgrading, kept, st') && kept == None
    ensures
      || ev.failed || HandsOff(e, ev, upgrading)
      || st.link == Broken || (st.link == Shut && st'.unread == [])
      || exists n: nat :: n <= |st.unread| && st' == Taken(st, n) && Rejects(e.conn.buf + st.unread[..n])
  {
    if !ev.failed && !HandsOff(e, ev, upgrading) && ev.readable {
      var n: nat, rs, conn :| Reads(e.conn, st, n, rs, conn, st') && kept == AfterRead(conn, rs);
      assert st' == Taken(st, n);
    }
  }

  /** An entry with the interest it is registered for, if it is kept. */
  function Registered(conn: Conn, next: Option<Interest>): Option<Entry> {
    if next.Some? then Some(Entry(conn, next.value)) else None
  }

  /** Some call of GetRequest leads there. */
  ghost predicate AfterInput(c: Conn, st: Stream, kept: Option<Entry>, st': Stream) {
    exists n: nat, rs, conn :: Reads(c, st, n, rs, conn, st') && kept == AfterRead(conn, rs)
  }

  /** Some call of SendReply leads there. */
  ghost predicate AfterOutput(c: Conn, st: Stream, kept: Option<Entry>, st': Stream) {
    exists n: nat, ws, conn :: Writes(c, st, n, ws, conn, st') && kept == AfterWrite(conn, ws)
  }
}
