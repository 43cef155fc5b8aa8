/** The hot upgrade as a step system: a retiring server process and its successor, the kernel's streams and
    accept queue, and the Unix socket that carries descriptors from one to the other. Steps of
    the two processes, the clients and the kernel interleave in every possible way. */
module HotUpgrade {
  import opened Coding
  import opened Sequences
  import opened Frames
  import opened Echo

  /** An open TCP connection, whatever number its descriptor has in either process. */
  type Session = nat

  datatype Process = Process(listening: bool, conns: map<Session, Entry>)

  /** What a control message carries. */
  datatype Item = Listener | Connection(id: Session)

  /** The retiring process is single-threaded: while it waits for a reply it does nothing else. */
  datatype Sender = Running | Blocked(item: Item)

  datatype System = System(
    retiring: Process,
    successor: Process,
    upgrading: bool,              // the retiring process has its Unix client
    sender: Sender,
    wire: seq<Item>,              // descriptor messages in flight
    acks: nat,                    // replies in flight
    backlog: seq<Session>,        // connections the kernel has completed, not yet accepted
    streams: map<Session, Stream>,
    closed: set<Session>)         // sessions the owning process has closed

  datatype Who = Retiring | Successor

  datatype Step =
    | Connect(id: Session)
    | Send(id: Session, data: Bytes)
    | Finish(id: Session)         // the client closes its end for sending
    | Break(id: Session)          // the connection is lost
    | Accept(who: Who)
    | Readable(who: Who, id: Session, n: nat, rs: ReadStatus, conn: Conn, stream: Stream)
    | Writable(who: Who, id: Session, n: nat, ws: WriteStatus, conn: Conn, stream: Stream)
    | Hangup(who: Who, id: Session)
    | Trigger
    | Handoff(id: Session)
    | Receive
    | Resume

  function Proc(s: System, who: Who): Process {
    if who == Retiring then s.retiring else s.successor
  }

  function WithConns(s: System, who: Who, conns: map<Session, Entry>): System {
    if who == Retiring then s.(retiring := s.retiring.(conns := conns))
    else s.(successor := s.successor.(conns := conns))
  }

  predicate CanRun(s: System, who: Who) {
    who == Successor || s.sender == Running
  }

  predicate Handles(s: System, who: Who, id: Session) {
    CanRun(s, who) && id in Proc(s, who).conns
  }

  function CloseIn(s: System, who: Who, id: Session): System {
    WithConns(s, who, Proc(s, who).conns - {id}).(closed := s.closed + {id})
  }

  function SetEntry(s: System, who: Who, id: Session, e: Option<Entry>): System {
    if e.None? then CloseIn(s, who, id) else WithConns(s, who, Proc(s, who).conns[id := e.value])
  }

  /** An input event in the retiring process starts a transfer instead of a read once the upgrade has
      begun and the read buffer is empty. */
  predicate MustHandOff(s: System, who: Who, id: Session) {
    && who == Retiring && s.upgrading && id in s.retiring.conns
    && s.retiring.conns[id].interest == In && s.retiring.conns[id].conn.buf == []
  }

  predicate Next(s: System, step: Step, s': System) {
    match step
    case Connect(id) =>
      && id !in s.streams
      && s' == s.(streams := s.streams[id := NEW_STREAM], backlog := s.backlog + [id])
    case Send(id, data) =>
      && id in s.streams && s.streams[id].link == Up
      && s' == s.(streams := s.streams[id := s.streams[id].(unread := s.streams[id].unread + data)])
    case Finish(id) =>
      && id in s.streams && s.streams[id].link == Up
      && s' == s.(streams := s.streams[id := s.streams[id].(link := Shut)])
    case Break(id) =>
      && id in s.streams
      && s' == s.(streams := s.streams[id := s.streams[id].(link := Broken)])
    case Accept(who) =>
      && CanRun(s, who) && Proc(s, who).listening && s.backlog != []
      && s' == WithConns(s, who, Proc(s, who).conns[s.backlog[0] := ACCEPTED]).(backlog := s.backlog[1..])
    case Readable(who, id, n, rs, conn, stream) =>
      && Handles(s, who, id) && id in s.streams
      && Proc(s, who).conns[id].interest == In
      && !MustHandOff(s, who, id)
      && Reads(Proc(s, who).conns[id].conn, s.streams[id], n, rs, conn, stream)
      && var t := s.(streams := s.streams[id := stream]);
         s' == SetEntry(t, who, id, AfterRead(conn, rs))
    case Writable(who, id, n, ws, conn, stream) =>
      && Handles(s, who, id) && id in s.streams
      && Proc(s, who).conns[id].interest == Out
      && Writes(Proc(s, who).conns[id].conn, s.streams[id], n, ws, conn, stream)
      && var t := s.(streams := s.streams[id := stream]);
         s' == SetEntry(t, who, id, AfterWrite(conn, ws))
    case Hangup(who, id) =>
      && Handles(s, who, id) && id in s.streams && s.streams[id].link == Broken
      && s' == CloseIn(s, who, id)
    case Trigger =>
      && s.sender == Running && !s.upgrading && s.retiring.listening
      && s' == s.(upgrading := true, sender := Blocked(Listener), wire := s.wire + [Listener])
    case Handoff(id) =>
      && s.sender == Running && MustHandOff(s, Retiring, id)
      && s' == s.(sender := Blocked(Connection(id)), wire := s.wire + [Connection(id)])
    case Receive =>
      && s.wire != []
      && var t := s.(wire := s.wire[1..], acks := s.acks + 1);
         s' == match s.wire[0] {
               case Listener => t.(successor := s.successor.(listening := true))
               case Connection(id) => t.(successor := s.successor.(conns := s.successor.conns[id := ACCEPTED]))
               }
    case Resume =>
      && s.sender.Blocked? && s.acks > 0
      && var t := s.(sender := Running, acks := s.acks - 1);
         s' == match s.sender.item {
               case Listener => t.(retiring := s.retiring.(listening := false))
               case Connection(id) => t.(retiring := s.retiring.(conns := s.retiring.conns - {id}))
               }
  }

  ghost predicate Init(s: System) {
    s == System(Process(true, map[]), Process(false, map[]), false, Running, [], 0, [], map[], {})
  }

  // ---------------------------------------------------------------------------------------
  // The specification: one echo server that is never upgraded.

  datatype Single = Single(
    conns: map<Session, Entry>,
    backlog: seq<Session>,
    streams: map<Session, Stream>,
    closed: set<Session>)

  function SingleClose(s: Single, id: Session): Single {
    s.(conns := s.conns - {id}, closed := s.closed + {id})
  }

  function SingleSet(s: Single, id: Session, e: Option<Entry>): Single {
    if e.None? then SingleClose(s, id) else s.(conns := s.conns[id := e.value])
  }

  predicate SingleNext(s: Single, step: Step, s': Single) {
    match step
    case Connect(id) =>
      && id !in s.streams
      && s' == s.(streams := s.streams[id := NEW_STREAM], backlog := s.backlog + [id])
    case Send(id, data) =>
      && id in s.streams && s.streams[id].link == Up
      && s' == s.(streams := s.streams[id := s.streams[id].(unread := s.streams[id].unread + data)])
    case Finish(id) =>
      && id in s.streams && s.streams[id].link == Up
      && s' == s.(streams := s.streams[id := s.streams[id].(link := Shut)])
    case Break(id) =>
      && id in s.streams
      && s' == s.(streams := s.streams[id := s.streams[id].(link := Broken)])
    case Accept(_) =>
      && s.backlog != []
      && s' == s.(conns := s.conns[s.backlog[0] := ACCEPTED], backlog := s.backlog[1..])
    case Readable(_, id, n, rs, conn, stream) =>
      && id in s.conns && id in s.streams && s.conns[id].interest == In
      && Reads(s.conns[id].conn, s.streams[id], n, rs, conn, stream)
      && var t := s.(streams := s.streams[id := stream]);
         s' == SingleSet(t, id, AfterRead(conn, rs))
    case Writable(_, id, n, ws, conn, stream) =>
      && id in s.conns && id in s.streams && s.conns[id].interest == Out
      && Writes(s.conns[id].conn, s.streams[id], n, ws, conn, stream)
      && var t := s.(streams := s.streams[id := stream]);
         s' == SingleSet(t, id, AfterWrite(conn, ws))
    case Hangup(_, id) =>
      && id in s.conns && id in s.streams && s.streams[id].link == Broken
      && s' == SingleClose(s, id)
    case _ => false
  }

  ghost predicate SingleInit(s: Single) {
    s == Single(map[], [], map[], {})
  }

  /** Every session is in exactly one of the accept queue, the connection map and the closed set. */
  ghost predicate Placed(s: Single) {
    && NoDuplicates(s.backlog)
    && (forall id :: id in s.streams <==> id in s.backlog || id in s.conns || id in s.closed)
    && (forall id :: id in s.backlog ==> id !in s.conns && id !in s.closed)
    && (forall id :: id in s.conns ==> id !in s.closed)
  }

  ghost predicate SingleInv(s: Single) {
    && Placed(s)
    && (forall id :: id in s.conns ==>
          Echoes(s.conns[id].conn, s.streams[id], s.conns[id].interest))
    && (forall id :: id in s.streams ==> Faithful(s.streams[id]))
    && (forall id :: id in s.closed ==> Over(s.streams[id]))
    && (forall id :: id in s.backlog ==>
          s.streams[id].consumed == [] && s.streams[id].sent == [])
  }

  lemma SessionUpdated(s: Single, id: Session, e: Entry, st: Stream)
    requires SingleInv(s) && id in s.conns
    requires Echoes(e.conn, st, e.interest) && Faithful(st)
    ensures SingleInv(s.(conns := s.conns[id := e], streams := s.streams[id := st]))
  {
  }

  lemma SessionClosed(s: Single, id: Session, st: Stream)
    requires SingleInv(s) && id in s.conns
    requires Faithful(st) && Over(st)
    ensures SingleInv(SingleClose(s.(streams := s.streams[id := st]), id))
  {
  }

  lemma SessionAccepted(s: Single)
    requires SingleInv(s) && s.backlog != []
    ensures SingleInv(s.(conns := s.conns[s.backlog[0] := ACCEPTED], backlog := s.backlog[1..]))
  {
    var id := s.backlog[0];
    assert id in s.backlog;
    assert s.backlog == [id] + s.backlog[1..];
    assert s.streams[id].consumed == NEW_STREAM.consumed;
    FreshEchoes();
  }

  lemma SessionReads(s: Single, id: Session, n: nat, rs: ReadStatus, conn: Conn, stream: Stream)
    requires SingleInv(s) && id in s.conns && s.conns[id].interest == In
    requires Reads(s.conns[id].conn, s.streams[id], n, rs, conn, stream)
    ensures rs.ReadAll? ==> Echoes(conn, stream, Out)
    ensures rs.ReadHalf? ==> Echoes(conn, stream, In)
    ensures !rs.ReadAll? && !rs.ReadHalf? ==> Over(stream)
    ensures Faithful(stream)
  {
    ReadsKeepEcho(s.conns[id].conn, s.streams[id], n, rs, conn, stream);
  }

  lemma SessionWrites(s: Single, id: Session, n: nat, ws: WriteStatus, conn: Conn, stream: Stream)
    requires SingleInv(s) && id in s.conns && s.conns[id].interest == Out
    requires Writes(s.conns[id].conn, s.streams[id], n, ws, conn, stream)
    ensures Echoes(conn, stream, if ws.WriteAll? then In else Out)
    ensures Faithful(stream)
  {
    WritesKeepEcho(s.conns[id].conn, s.streams[id], n, ws, conn, stream);
  }

  lemma SingleReadable(s: Single, step: Step, s': Single)
    requires SingleInv(s) && step.Readable? && SingleNext(s, step, s')
    ensures SingleInv(s')
  {
    var Readable(_, id, n, rs, conn, stream) := step;
    SessionReads(s, id, n, rs, conn, stream);
    match AfterRead(conn, rs)
    case None => SessionClosed(s, id, stream);
    case Some(e) => SessionUpdated(s, id, e, stream);
  }

  lemma SingleWritable(s: Single, step: Step, s': Single)
    requires SingleInv(s) && step.Writable? && SingleNext(s, step, s')
    ensures SingleInv(s')
  {
    var Writable(_, id, n, ws, conn, stream) := step;
    SessionWrites(s, id, n, ws, conn, stream);
    match AfterWrite(conn, ws)
    case None => SessionClosed(s, id, stream);
    case Some(e) => SessionUpdated(s, id, e, stream);
  }

  lemma SingleConnects(s: Single, id: Session)
    requires SingleInv(s) && id !in s.streams
    ensures SingleInv(s.(streams := s.streams[id := NEW_STREAM], backlog := s.backlog + [id]))
  {
    var s' := s.(streams := s.streams[id := NEW_STREAM], backlog := s.backlog + [id]);
    assert forall x :: x in s'.backlog <==> x in s.backlog || x == id;
    FreshEchoes();
    EchoesFaithful(FRESH, NEW_STREAM, In);
  }

  lemma SingleSends(s: Single, id: Session, data: Bytes)
    requires SingleInv(s) && id in s.streams && s.streams[id].link == Up
    ensures SingleInv(s.(streams := s.streams[id := s.streams[id].(unread := s.streams[id].unread + data)]))
  {
  }

  lemma SingleLoses(s: Single, id: Session, link: Link)
    requires SingleInv(s) && id in s.streams && (link == Broken || s.streams[id].link == Up)
    ensures SingleInv(s.(streams := s.streams[id := s.streams[id].(link := link)]))
  {
  }

  /** The invariant of the server that is never upgraded. */
  lemma SingleInvKept(s: Single, step: Step, s': Single)
    requires SingleInv(s) && SingleNext(s, step, s')
    ensures SingleInv(s')
  {
    match step
    case Connect(id) => SingleConnects(s, id);
    case Send(id, data) => SingleSends(s, id, data);
    case Finish(id) => SingleLoses(s, id, Shut);
    case Break(id) => SingleLoses(s, id, Broken);
    case Accept(_) => SessionAccepted(s);
    case Readable(_, _, _, _, _, _) => SingleReadable(s, step, s');
    case Writable(_, _, _, _, _, _) => SingleWritable(s, step, s');
    case Hangup(_, id) =>
      assert s.streams[id := s.streams[id]] == s.streams;
      SessionClosed(s, id, s.streams[id]);
  }

  // ---------------------------------------------------------------------------------------
  // Refinement.

  /** The session whose descriptor the successor has already taken while the retiring process,
      still blocked, has not closed its own copy. */
  function Moved(s: System): set<Session> {
    if s.sender.Blocked? && s.sender.item.Connection? && s.wire == [] then {s.sender.item.id} else {}
  }

  /** The connections of the process that owns each session. */
  function Owners(s: System): map<Session, Entry> {
    (s.retiring.conns - Moved(s)) + s.successor.conns
  }

  function Abs(s: System): Single {
    Single(Owners(s), s.backlog, s.streams, s.closed)
  }

  /** The state of the exchange on the Unix socket. */
  ghost predicate Channel(s: System) {
    match s.sender
    case Running => s.wire == [] && s.acks == 0
    case Blocked(item) => (s.wire == [item] && s.acks == 0) || (s.wire == [] && s.acks == 1)
  }

  /** Where the listening socket is. */
  ghost predicate ListenerPlaced(s: System) {
    if !s.upgrading then s.retiring.listening && !s.successor.listening && s.sender == Running
    else if s.sender == Blocked(Listener) then s.retiring.listening && (s.successor.listening <==> s.wire == [])
    else !s.retiring.listening && s.successor.listening
  }

  /** No session has two owners, and a process that can run owns what it holds. */
  ghost predicate Separate(s: System) {
    && (s.retiring.conns.Keys - Moved(s)) !! s.successor.conns.Keys
    && (s.sender == Running ==> Moved(s) == {})
  }

  /** A session in transfer is still held by the sender, with nothing half-read or half-sent. */
  ghost predicate TransferClean(s: System) {
    s.sender.Blocked? && s.sender.item.Connection? ==>
      && s.sender.item.id in s.retiring.conns
      && (s.wire != [] ==> s.retiring.conns[s.sender.item.id] == ACCEPTED)
  }

  ghost predicate Protocol(s: System) {
    Channel(s) && ListenerPlaced(s) && Separate(s) && TransferClean(s)
  }

  ghost predicate SystemInv(s: System) {
    Protocol(s) && SingleInv(Abs(s))
  }

  lemma InitHolds(s: System)
    requires Init(s)
    ensures SystemInv(s) && SingleInit(Abs(s))
  {
  }

  /** The steps that belong to the upgrade itself. */
  predicate UpgradeStep(step: Step) {
    step.Trigger? || step.Handoff? || step.Receive? || step.Resume?
  }

  /** A step of the upgrade is invisible: nothing about any session changes. */
  lemma UpgradeStepInvisible(s: System, step: Step, s': System)
    requires Protocol(s) && Next(s, step, s') && UpgradeStep(step)
    ensures Abs(s') == Abs(s)
  {
    match step
    case Trigger => assert Owners(s') == Owners(s);
    case Handoff(id) => assert Owners(s') == Owners(s);
    case Receive => assert Owners(s') == Owners(s);
    case Resume => assert Owners(s') == Owners(s);
    case _ =>
  }

  lemma OwnerUpdates(s: System, who: Who, id: Session, e: Entry)
    requires Separate(s) && CanRun(s, who)
    requires id in Proc(s, who).conns || id !in Owners(s)
    requires id !in Moved(s) || who == Successor
    ensures id in Proc(s, who).conns ==> id in Owners(s) && Owners(s)[id] == Proc(s, who).conns[id]
    ensures Owners(WithConns(s, who, Proc(s, who).conns[id := e])) == Owners(s)[id := e]
    ensures Separate(WithConns(s, who, Proc(s, who).conns[id := e]))
  {
  }

  lemma OwnerCloses(s: System, who: Who, id: Session)
    requires Separate(s) && Handles(s, who, id)
    ensures id in Owners(s) && Owners(s)[id] == Proc(s, who).conns[id]
    ensures Owners(CloseIn(s, who, id)) == Owners(s) - {id}
    ensures Separate(CloseIn(s, who, id))
  {
  }

  /** Any other step is the same step of the server that is never upgraded. */
  lemma ServiceStepRefines(s: System, step: Step, s': System)
    requires Separate(s) && Placed(Abs(s)) && Next(s, step, s') && !UpgradeStep(step)
    ensures SingleNext(Abs(s), step, Abs(s'))
    ensures Separate(s')
  {
    match step
    case Connect(id) =>
    case Send(id, data) =>
    case Finish(id) =>
    case Break(id) =>
    case Accept(who) =>
      assert s.backlog[0] in s.backlog;
      OwnerUpdates(s, who, s.backlog[0], ACCEPTED);
    case Readable(who, id, n, rs, conn, stream) =>
      ReadableRefines(s, step, s');
    case Writable(who, id, n, ws, conn, stream) =>
      WritableRefines(s, step, s');
    case Hangup(who, id) =>
      OwnerCloses(s, who, id);
    case _ =>
  }

  lemma ReadableRefines(s: System, step: Step, s': System)
    requires Separate(s) && step.Readable? && Next(s, step, s')
    ensures SingleNext(Abs(s), step, Abs(s')) && Separate(s')
  {
    var Readable(who, id, n, rs, conn, stream) := step;
    var t := s.(streams := s.streams[id := stream]);
    match AfterRead(conn, rs)
    case None => OwnerCloses(t, who, id);
    case Some(e) => OwnerUpdates(t, who, id, e);
  }

  lemma WritableRefines(s: System, step: Step, s': System)
    requires Separate(s) && step.Writable? && Next(s, step, s')
    ensures SingleNext(Abs(s), step, Abs(s')) && Separate(s')
  {
    var Writable(who, id, n, ws, conn, stream) := step;
    var t := s.(streams := s.streams[id := stream]);
    match AfterWrite(conn, ws)
    case None => OwnerCloses(t, who, id);
    case Some(e) => OwnerUpdates(t, who, id, e);
  }

  /** A session leaves the retiring process only between requests: nothing half-read, no reply
      pending, and everything owed to the client already sent. */
  lemma HandoffClean(s: System, id: Session)
    requires SystemInv(s) && s.sender == Running && MustHandOff(s, Retiring, id)
    ensures s.retiring.conns[id] == ACCEPTED
    ensures id in s.streams && Rest(s.streams[id].consumed) == []
    ensures s.streams[id].sent == Owed(s.streams[id])
  {
    var e := s.retiring.conns[id];
    assert Abs(s).conns[id] == e;
    EchoesFaithful(e.conn, s.streams[id], In);
  }

  /** A service step leaves the exchange alone, and a blocked sender's connections with it. */
  ghost predicate SameExchange(s: System, s': System) {
    && s'.sender == s.sender && s'.wire == s.wire && s'.acks == s.acks && s'.upgrading == s.upgrading
    && s'.retiring.listening == s.retiring.listening && s'.successor.listening == s.successor.listening
    && (s.sender.Blocked? ==> s'.retiring.conns == s.retiring.conns)
  }

  lemma ServiceLeavesExchange(s: System, step: Step, s': System)
    requires Next(s, step, s') && !UpgradeStep(step)
    ensures SameExchange(s, s')
  {
    match step
    case Connect(_) =>
    case Send(_, _) =>
    case Finish(_) =>
    case Break(_) =>
    case Accept(_) =>
    case Readable(_, _, _, _, _, _) =>
    case Writable(_, _, _, _, _, _) =>
    case Hangup(_, _) =>
  }

  lemma ServiceKeepsProtocol(s: System, s': System)
    requires Protocol(s) && Separate(s') && SameExchange(s, s')
    ensures Protocol(s')
  {
  }

  lemma UpgradeKeepsProtocol(s: System, step: Step, s': System)
    requires Protocol(s) && Next(s, step, s') && UpgradeStep(step)
    requires step.Handoff? ==> s.retiring.conns[step.id] == ACCEPTED
    ensures Protocol(s')
  {
  }

  lemma SystemInvKept(s: System, step: Step, s': System)
    requires SystemInv(s) && Next(s, step, s')
    ensures SystemInv(s')
  {
    if UpgradeStep(step) {
      UpgradeStepInvisible(s, step, s');
      if step.Handoff? {
        HandoffClean(s, step.id);
      }
      UpgradeKeepsProtocol(s, step, s');
    } else {
      ServiceStepRefines(s, step, s');
      ServiceLeavesExchange(s, step, s');
      ServiceKeepsProtocol(s, s');
      SingleInvKept(Abs(s), step, Abs(s'));
    }
  }
}
