/** What the two processes can always do: accept, answer and move sessions, whatever the upgrade is doing. */
module UpgradeProgress {
  import opened Coding
  import opened Frames
  import opened Echo
  import opened HotUpgrade
  import opened Server
  import opened UpgradeTheorems

  ghost predicate IsPath(states: seq<System>, steps: seq<Step>, from: System, to: System) {
    && |states| == |steps| + 1 && states[0] == from && states[|steps|] == to
    && forall i :: 0 <= i < |steps| ==> Next(states[i], steps[i], states[i + 1])
  }

  lemma JoinPaths(a: seq<System>, stepsA: seq<Step>, b: seq<System>, stepsB: seq<Step>, s: System, t: System, u: System)
    requires IsPath(a, stepsA, s, t) && IsPath(b, stepsB, t, u)
    ensures IsPath(a + b[1..], stepsA + stepsB, s, u)
  {
    var states, steps := a + b[1..], stepsA + stepsB;
    forall i | 0 <= i < |steps| ensures Next(states[i], steps[i], states[i + 1]) {
      if i < |stepsA| {
        assert Next(a[i], stepsA[i], a[i + 1]);
      } else {
        var k := i - |stepsA|;
        assert Next(b[k], stepsB[k], b[k + 1]);
        assert states[i] == b[k] && states[i + 1] == b[k + 1];
      }
    }
  }

  /** The steps that the two processes take by themselves, with the kernel's help. */
  predicate OfServer(step: Step) {
    step.Accept? || step.Readable? || step.Writable? || step.Handoff? || step.Receive? || step.Resume?
  }

  predicate OfServers(steps: seq<Step>) {
    forall i :: 0 <= i < |steps| ==> OfServer(steps[i])
  }

  /** The servers can get from one state to the other by themselves. */
  ghost predicate Leads(s: System, t: System) {
    exists states, steps :: IsPath(states, steps, s, t) && OfServers(steps)
  }

  lemma LeadsItself(s: System)
    ensures Leads(s, s)
  {
    assert IsPath([s], [], s, s) && OfServers([]);
  }

  lemma LeadsByStep(s: System, step: Step, t: System)
    requires Next(s, step, t) && OfServer(step)
    ensures Leads(s, t)
  {
    assert IsPath([s, t], [step], s, t);
  }

  lemma LeadsOn(s: System, t: System, u: System)
    requires Leads(s, t) && Leads(t, u)
    ensures Leads(s, u)
  {
    var a, stepsA :| IsPath(a, stepsA, s, t) && OfServers(stepsA);
    var b, stepsB :| IsPath(b, stepsB, t, u) && OfServers(stepsB);
    JoinPaths(a, stepsA, b, stepsB, s, t, u);
    assert OfServers(stepsA + stepsB);
  }

  // ---------------------------------------------------------------------------------------
  // One session

  /** The session is open, and its client has not done anything since. */
  ghost predicate StillOpen(s: System, t: System, id: Session) {
    && id in Owners(t) && id in s.streams && id in t.streams
    && t.streams[id].link == s.streams[id].link && Arrived(t.streams[id]) == Arrived(s.streams[id])
    && |t.streams[id].unread| <= |s.streams[id].unread|
  }

  /** Nothing has happened to other sessions, but that they may have moved to the successor. */
  ghost predicate OthersKept(s: System, t: System, id: Session) {
    && t.upgrading == s.upgrading && t.backlog == s.backlog && t.closed == s.closed
    && t.retiring.conns.Keys <= s.retiring.conns.Keys
    && Owners(t) - {id} == Owners(s) - {id} && t.streams - {id} == s.streams - {id}
  }

  /** The servers can get there, with the session still open and the others untouched. */
  ghost predicate Serves(s: System, t: System, id: Session) {
    Leads(s, t) && SystemInv(t) && StillOpen(s, t, id) && OthersKept(s, t, id)
  }

  lemma ServesOn(s: System, t: System, u: System, id: Session)
    requires Serves(s, t, id) && Serves(t, u, id)
    ensures Serves(s, u, id)
  {
    LeadsOn(s, t, u);
  }

  /** The owner is about to read the session's next request. */
  predicate Attends(s: System, who: Who, id: Session) {
    && Handles(s, who, id) && Proc(s, who).conns[id].interest == In && !MustHandOff(s, who, id)
  }

  function OwnerOf(s: System, id: Session): Who {
    if id in s.successor.conns then Successor else Retiring
  }

  lemma OwnerHandles(s: System, id: Session)
    requires SystemInv(s) && id in Owners(s) && CanRun(s, OwnerOf(s, id))
    ensures
      var who := OwnerOf(s, id);
      && Handles(s, who, id) && Proc(s, who).conns[id] == Owners(s)[id] && id in s.streams
      && Echoes(Owners(s)[id].conn, s.streams[id], Owners(s)[id].interest)
  {
    assert Abs(s).conns[id] == Owners(s)[id];
  }

  /** A blocked sender can be freed, and no client can tell. */
  lemma Unblocked(s: System) returns (t: System)
    requires SystemInv(s)
    ensures Leads(s, t) && SystemInv(t) && t.sender == Running && Abs(t) == Abs(s)
    ensures t.upgrading == s.upgrading && t.retiring.conns.Keys <= s.retiring.conns.Keys
  {
    t := s;
    LeadsItself(s);
    if s.sender.Blocked? {
      var states, steps := SenderUnblocks(s);
      t := states[|states| - 1];
      assert IsPath(states, steps, s, t) && OfServers(steps);
    }
  }

  lemma SameToClients(s: System, t: System, id: Session)
    requires Leads(s, t) && SystemInv(t) && Abs(t) == Abs(s) && id in Owners(s) && id in s.streams
    requires t.upgrading == s.upgrading && t.retiring.conns.Keys <= s.retiring.conns.Keys
    ensures Serves(s, t, id) && Owners(t) == Owners(s)
  {
    assert Owners(t) == Abs(t).conns && Owners(s) == Abs(s).conns;
  }

  /** The entry that a read or write leaves, when it keeps the session. */
  function EntryAfter(step: Step): Option<Entry>
    requires step.Readable? || step.Writable?
  {
    if step.Readable? then AfterRead(step.conn, step.rs) else AfterWrite(step.conn, step.ws)
  }

  predicate KeepsEntry(step: Step) {
    (step.Readable? || step.Writable?) && EntryAfter(step).Some?
  }

  lemma SingleEntryKept(s: Single, step: Step, t: Single)
    requires SingleNext(s, step, t) && KeepsEntry(step)
    ensures t == s.(conns := s.conns[step.id := EntryAfter(step).value], streams := s.streams[step.id := step.stream])
  {
  }

  lemma OwnerEntryKept(s: System, step: Step, t: System)
    requires Separate(s) && Placed(Abs(s)) && Next(s, step, t) && KeepsEntry(step)
    ensures
      var conns, streams := Owners(s)[step.id := EntryAfter(step).value], s.streams[step.id := step.stream];
      Abs(t) == Abs(s).(conns := conns, streams := streams)
  {
    ServiceStepRefines(s, step, t);
    SingleEntryKept(Abs(s), step, Abs(t));
  }

  lemma ProcessesKept(s: System, step: Step, t: System)
    requires Next(s, step, t) && KeepsEntry(step)
    ensures t.sender == s.sender && t.upgrading == s.upgrading
    ensures t.retiring.conns.Keys == s.retiring.conns.Keys
  {
    ServiceLeavesExchange(s, step, t);
  }

  /** A read or write that keeps the session, with what it may do to the stream. */
  lemma EntryKept(s: System, step: Step, t: System)
    requires SystemInv(s) && Next(s, step, t) && KeepsEntry(step)
    requires var st, st' := s.streams[step.id], step.stream;
      st'.link == st.link && Arrived(st') == Arrived(st) && |st'.unread| <= |st.unread|
    ensures Serves(s, t, step.id) && t.sender == s.sender && t.streams[step.id] == step.stream
    ensures Owners(t)[step.id] == EntryAfter(step).value
  {
    LeadsByStep(s, step, t);
    ProcessesKept(s, step, t);
    OwnerEntryKept(s, step, t);
    EntryUpdated(s, t, step.id, EntryAfter(step).value, step.stream);
    SystemInvKept(s, step, t);
  }

  lemma EntryUpdated(s: System, t: System, id: Session, e: Entry, st: Stream)
    requires id in s.streams && Abs(t) == Abs(s).(conns := Owners(s)[id := e], streams := s.streams[id := st])
    requires t.upgrading == s.upgrading && t.retiring.conns.Keys == s.retiring.conns.Keys
    requires
      st.link == s.streams[id].link && Arrived(st) == Arrived(s.streams[id]) && |st.unread| <= |s.streams[id].unread|
    ensures StillOpen(s, t, id) && OthersKept(s, t, id) && Owners(t)[id] == e && t.streams[id] == st
  {
    assert Owners(t) == Abs(t).conns && t.streams == Abs(t).streams;
    assert t.backlog == Abs(t).backlog && t.closed == Abs(t).closed;
  }

  /** A reply under way can be sent to its end. */
  lemma Flushed(s: System, id: Session) returns (t: System)
    requires SystemInv(s) && id in Owners(s) && s.sender == Running && Owners(s)[id].interest == Out
    ensures Serves(s, t, id) && t.sender == Running && Owners(t)[id].interest == In
  {
    OwnerHandles(s, id);
    var who := OwnerOf(s, id);
    var n, c', st' := WriteToEnd(Owners(s)[id].conn, s.streams[id]);
    var step := Writable(who, id, n, WriteAll, c', st');
    t := SetEntry(s.(streams := s.streams[id := st']), who, id, Some(Entry(c', In)));
    EntryKept(s, step, t);
  }

  lemma WriteToEnd(c: Conn, st: Stream) returns (n: nat, c': Conn, st': Stream)
    requires c.written <= |c.reply|
    ensures Writes(c, st, n, WriteAll, c', st')
    ensures st'.unread == st.unread && st'.consumed == st.consumed && st'.link == st.link
  {
    n := |c.reply| - c.written;
    c', st' := c.(reply := [], written := 0), st.(sent := st.sent + c.reply[c.written..c.written + n]);
  }

  /** A session that must move can be moved; then its owner attends to it. */
  lemma Attended(s: System, id: Session) returns (t: System)
    requires SystemInv(s) && id in Owners(s) && s.sender == Running && Owners(s)[id].interest == In
    ensures Serves(s, t, id) && t.sender == Running && Attends(t, OwnerOf(t, id), id)
  {
    OwnerHandles(s, id);
    if MustHandOff(s, OwnerOf(s, id), id) {
      t := LetGo(s, id);
      Moves(s, id);
    } else {
      t := s;
      LeadsItself(s);
    }
    SameToClients(s, t, id);
    OwnerHandles(t, id);
  }

  lemma Moves(s: System, id: Session)
    requires SystemInv(s) && s.sender == Running && MustHandOff(s, Retiring, id)
    ensures Leads(s, LetGo(s, id)) && SystemInv(LetGo(s, id)) && Abs(LetGo(s, id)) == Abs(s)
  {
    var run := HandsOffIsSteps(s, id, Event(true, false, false));
    LeadsByStep(run[0], Handoff(id), run[1]);
    LeadsByStep(run[1], Receive, run[2]);
    LeadsByStep(run[2], Resume, run[3]);
    LeadsOn(run[0], run[1], run[2]);
    LeadsOn(run[0], run[2], run[3]);
  }

  /** From any state, what remains to be done before the owner attends to the session. */
  lemma TurnsTo(s: System, id: Session) returns (t: System)
    requires SystemInv(s) && id in Owners(s) && id in s.streams
    ensures Serves(s, t, id) && t.sender == Running && Attends(t, OwnerOf(t, id), id)
  {
    var a := Unblocked(s);
    SameToClients(s, a, id);
    if Owners(a)[id].interest == Out {
      var b := Flushed(a, id);
      ServesOn(s, a, b, id);
      a := b;
    }
    t := Attended(a, id);
    ServesOn(s, a, t, id);
  }

  /** The bytes that complete the request at the head of what is there. */
  lemma CompletesFrame(buf: Bytes, unread: Bytes) returns (n: nat)
    requires Partial(buf) && HasFrame(buf + unread)
    ensures 0 < n <= |unread| && IsFrame(buf + unread[..n])
  {
    var all := buf + unread;
    if |buf| >= HEADER_LEN { HeaderStable(buf, unread); }
    n := HEADER_LEN + RequestLen(all) - |buf|;
    var got := buf + unread[..n];
    assert got + unread[n..] == all;
    HeaderStable(got, unread[n..]);
  }

  lemma ReadToEnd(c: Conn, st: Stream) returns (n: nat, c': Conn, st': Stream)
    requires Partial(c.buf) && HasFrame(c.buf + st.unread)
    ensures Reads(c, st, n, ReadAll, c', st')
    ensures |st'.unread| < |st.unread| && Arrived(st') == Arrived(st) && st'.link == st.link
  {
    n := CompletesFrame(c.buf, st.unread);
    c', st' := c.(buf := [], reply := (c.buf + st.unread[..n])[HEADER_LEN..]), Taken(st, n);
    ReadsKeepArrived(st, n, st');
  }

  /** A request that has arrived whole can be read; the reply is then under way. */
  lemma FrameRead(s: System, id: Session) returns (t: System)
    requires SystemInv(s) && id in Owners(s) && Attends(s, OwnerOf(s, id), id) && id in s.streams
    requires HasFrame(Owners(s)[id].conn.buf + s.streams[id].unread)
    ensures Serves(s, t, id) && |t.streams[id].unread| < |s.streams[id].unread|
  {
    OwnerHandles(s, id);
    var who := OwnerOf(s, id);
    var n, c', st' := ReadToEnd(Owners(s)[id].conn, s.streams[id]);
    var step := Readable(who, id, n, ReadAll, c', st');
    t := SetEntry(s.(streams := s.streams[id := st']), who, id, Some(Entry(c', Out)));
    EntryKept(s, step, t);
  }

  /** Without another whole request everything is answered, and what is left is the undecoded remainder. */
  lemma NothingLeft(c: Conn, st: Stream)
    requires Echoes(c, st, In) && !HasFrame(c.buf + st.unread)
    ensures st.sent == Concat(Decode(Arrived(st))) && Rest(Arrived(st)) == c.buf + st.unread
  {
    EchoesFaithful(c, st, In);
    DecodeExtend(st.consumed, st.unread);
    assert Decode(st.consumed) + [] == Decode(st.consumed);
  }

  /** The client has the echo of every request that has arrived whole; and if it has not begun another one while
      the upgrade is under way, the session has moved. */
  ghost predicate Answered(s: System, t: System, id: Session) {
    && id in s.streams && id in t.streams
    && t.streams[id].sent == Concat(Decode(Arrived(s.streams[id])))
    && (s.upgrading && Rest(Arrived(s.streams[id])) == [] ==> id !in t.retiring.conns)
  }

  /** Every request can be answered: from every state of the invariant, whatever the upgrade is doing, the servers
      have a continuation of their own after which the client of an open session has received the echo of every
      request that has arrived whole, and the session is still open. */
  lemma {:induction false} RequestsAnswerable(s: System, id: Session) returns (t: System)
    requires SystemInv(s) && id in Owners(s) && id in s.streams
    ensures Serves(s, t, id) && t.sender == Running && Answered(s, t, id)
    decreases |s.streams[id].unread|
  {
    var a := TurnsTo(s, id);
    OwnerHandles(a, id);
    if HasFrame(Owners(a)[id].conn.buf + a.streams[id].unread) {
      var b := FrameRead(a, id);
      t := RequestsAnswerable(b, id);
      ServesOn(s, a, b, id);
      ServesOn(s, b, t, id);
    } else {
      NothingLeft(Owners(a)[id].conn, a.streams[id]);
      t := a;
    }
  }

  // ---------------------------------------------------------------------------------------
  // All sessions

  /** The servers can get there with every session open as before, and its client unaware. */
  ghost predicate ServesAll(s: System, t: System) {
    Leads(s, t) && SystemInv(t) && AllOpen(s, t)
  }

  ghost predicate AllOpen(s: System, t: System) {
    && t.upgrading == s.upgrading && t.backlog == s.backlog && t.closed == s.closed
    && t.retiring.conns.Keys <= s.retiring.conns.Keys && Owners(t).Keys == Owners(s).Keys
    && SameInput(s.streams, t.streams)
  }

  /** The clients have not done anything. */
  ghost predicate SameInput(a: map<Session, Stream>, b: map<Session, Stream>) {
    && a.Keys == b.Keys
    && forall id :: id in a ==> b[id].link == a[id].link && Arrived(b[id]) == Arrived(a[id])
  }

  lemma ServedOneMore(s: System, t: System, u: System, id: Session)
    requires ServesAll(s, t) && Serves(t, u, id) && id in Owners(t)
    ensures ServesAll(s, u)
    ensures forall x :: x in s.streams && x != id ==> u.streams[x] == t.streams[x]
  {
    LeadsOn(s, t, u);
    OpenOneMore(s, t, u, id);
  }

  lemma OpenOneMore(s: System, t: System, u: System, id: Session)
    requires AllOpen(s, t) && StillOpen(t, u, id) && OthersKept(t, u, id) && id in Owners(t)
    ensures AllOpen(s, u)
    ensures forall x :: x in s.streams && x != id ==> u.streams[x] == t.streams[x]
  {
    OneChanged(Owners(t), Owners(u), id);
    OneChanged(t.streams, u.streams, id);
  }

  lemma OneChanged<V>(m: map<Session, V>, m': map<Session, V>, id: Session)
    requires m' - {id} == m - {id} && id in m && id in m'
    ensures m'.Keys == m.Keys && forall x :: x in m && x != id ==> m'[x] == m[x]
  {
    forall x | x != id ensures x in m' <==> x in m ensures x in m ==> m'[x] == m[x] {
      assert x in m - {id} <==> x in m' - {id};
      assert x in m ==> (m - {id})[x] == (m' - {id})[x];
    }
  }

  /** Any set of open sessions can be served one after the other. */
  lemma {:induction false} SetServed(s: System, ids: set<Session>) returns (t: System)
    requires SystemInv(s) && ids <= Owners(s).Keys
    ensures ServesAll(s, t) && forall id :: id in ids ==> Answered(s, t, id)
    decreases |ids|
  {
    if ids == {} {
      t := s;
      LeadsItself(s);
    } else {
      var id :| id in ids;
      var a := SetServed(s, ids - {id});
      assert id in Owners(a) && Placed(Abs(a));
      t := RequestsAnswerable(a, id);
      ServedOneMore(s, a, t, id);
      forall x | x in ids ensures Answered(s, t, x) {
        if x != id {
          assert Answered(s, a, x);
        }
      }
    }
  }

  /** The upgrade can be completed: from every state in which it has begun and no client is in the middle of a
      request, the servers have a continuation of their own after which the retiring process holds no session and
      does not listen, every session is open in the successor, and every request is answered. */
  lemma UpgradeCompletes(s: System) returns (t: System)
    requires SystemInv(s) && s.upgrading
    requires forall id :: id in Owners(s) ==> id in s.streams && Rest(Arrived(s.streams[id])) == []
    ensures ServesAll(s, t) && t.sender == Running
    ensures t.retiring == Process(false, map[]) && t.successor.listening && t.successor.conns.Keys == Owners(s).Keys
    ensures forall id :: id in Owners(s) ==> t.streams[id].sent == Concat(Decode(Arrived(s.streams[id])))
  {
    var a := SetServed(s, Owners(s).Keys);
    t := Unblocked(a);
    LeadsOn(s, a, t);
    AbsOpen(s, a, t);
    forall id | id in Owners(s) ensures id !in t.retiring.conns
      ensures t.streams[id].sent == Concat(Decode(Arrived(s.streams[id])))
    {
      assert Answered(s, a, id);
    }
    NoneLeft(t, Owners(s).Keys);
  }

  lemma AbsOpen(s: System, a: System, t: System)
    requires AllOpen(s, a) && Abs(t) == Abs(a) && t.upgrading == a.upgrading
    requires t.retiring.conns.Keys <= a.retiring.conns.Keys
    ensures AllOpen(s, t) && t.streams == a.streams
  {
    assert Owners(t) == Abs(t).conns && Owners(a) == Abs(a).conns;
    assert t.streams == Abs(t).streams && t.backlog == Abs(t).backlog && t.closed == Abs(t).closed;
  }

  lemma NoneLeft(t: System, ids: set<Session>)
    requires Separate(t) && ListenerPlaced(t) && t.sender == Running && t.upgrading && Owners(t).Keys == ids
    requires forall id :: id in ids ==> id !in t.retiring.conns
    ensures t.retiring == Process(false, map[]) && t.successor.listening && t.successor.conns.Keys == ids
  {
    forall id ensures id !in t.retiring.conns {
      assert id in t.retiring.conns ==> id in Owners(t);
    }
    assert t.retiring.conns == map[];
    assert Owners(t) == t.successor.conns;
  }

  /** Clients are free: at any time one can connect, send anything, close its end, or be cut off, whatever the
      servers are doing; and none of that disturbs the invariant. */
  lemma ClientsAreFree(s: System, id: Session, data: Bytes) returns (t: System, step: Step)
    requires SystemInv(s)
    ensures Next(s, step, t) && SystemInv(t) && id in t.streams
    ensures if id in s.streams && s.streams[id].link == Up
            then Arrived(t.streams[id]) == Arrived(s.streams[id]) + data && t.streams[id].link == Up
            else if id in s.streams then t.streams[id].link == Broken
            else t.streams[id] == NEW_STREAM && t.backlog == s.backlog + [id]
  {
    if id !in s.streams {
      step, t := Connect(id), s.(streams := s.streams[id := NEW_STREAM], backlog := s.backlog + [id]);
    } else if s.streams[id].link == Up {
      var st := s.streams[id];
      step, t := Send(id, data), s.(streams := s.streams[id := st.(unread := st.unread + data)]);
      Regroup(st.consumed, st.unread, data);
    } else {
      step, t := Break(id), s.(streams := s.streams[id := s.streams[id].(link := Broken)]);
    }
    SystemInvKept(s, step, t);
  }

  lemma ClientsCanFinish(s: System, id: Session)
    requires id in s.streams && s.streams[id].link == Up
    ensures exists t :: Next(s, Finish(id), t) && t.streams == s.streams[id := s.streams[id].(link := Shut)]
  {
    assert Next(s, Finish(id), s.(streams := s.streams[id := s.streams[id].(link := Shut)]));
  }

  /** The upgrade can begin at any time, and no client can tell. */
  lemma UpgradeBegins(s: System) returns (t: System)
    requires SystemInv(s) && !s.upgrading
    ensures Next(s, Trigger, t) && SystemInv(t) && t.upgrading && Abs(t) == Abs(s)
  {
    t := s.(upgrading := true, sender := Blocked(Listener), wire := s.wire + [Listener]);
    assert Next(s, Trigger, t);
    UpgradeStepInvisible(s, Trigger, t);
    SystemInvKept(s, Trigger, t);
  }

  // ---------------------------------------------------------------------------------------
  // Sessions in the accept queue

  function Listens(s: System): Who {
    if s.successor.listening then Successor else Retiring
  }

  lemma AcceptsFirst(s: System) returns (t: System)
    requires SystemInv(s) && s.sender == Running && s.backlog != []
    ensures Leads(s, t) && SystemInv(t) && t.sender == Running && t.streams == s.streams
    ensures t.backlog == s.backlog[1..] && s.backlog[0] in Owners(t) && t.closed == s.closed
  {
    var who, id := Listens(s), s.backlog[0];
    t := WithConns(s, who, Proc(s, who).conns[id := ACCEPTED]).(backlog := s.backlog[1..]);
    assert Next(s, Accept(who), t);
    LeadsByStep(s, Accept(who), t);
    SystemInvKept(s, Accept(who), t);
    assert id in Proc(t, who).conns;
  }

  /** A queued session can be accepted, by whichever process listens then. */
  lemma {:induction false} QueuedIsAccepted(s: System, id: Session) returns (t: System)
    requires SystemInv(s) && id in s.backlog
    ensures Leads(s, t) && SystemInv(t) && id in Owners(t) && t.streams == s.streams
    decreases |s.backlog|
  {
    var a := Unblocked(s);
    assert Abs(a).backlog == Abs(s).backlog && Abs(a).streams == Abs(s).streams;
    var b := AcceptsFirst(a);
    LeadsOn(s, a, b);
    if id == s.backlog[0] {
      t := b;
    } else {
      t := QueuedIsAccepted(b, id);
      LeadsOn(s, b, t);
    }
  }

  /** From every moment of every run, for every client whose session has not been closed: the servers can go on so
      that it has the echo of every request it has sent whole, by whichever process. */
  lemma EveryClientAnswerable(states: seq<System>, steps: seq<Step>, i: nat, id: Session) returns (t: System)
    requires IsRun(states, steps) && i < |states|
    requires id in states[i].streams && id !in states[i].closed
    ensures Leads(states[i], t) && id in Owners(t) && id in t.streams
    ensures t.streams[id].sent == Concat(Decode(Arrived(states[i].streams[id])))
  {
    RunInv(states, steps, i);
    var a := states[i];
    LeadsItself(a);
    if id in a.backlog {
      a := QueuedIsAccepted(a, id);
    }
    assert Placed(Abs(states[i]));
    t := RequestsAnswerable(a, id);
    LeadsOn(states[i], a, t);
  }
}
