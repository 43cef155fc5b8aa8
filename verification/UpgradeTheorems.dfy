/** What holds in every run of the hot upgrade. */
module UpgradeTheorems {
  import opened Coding
  import opened Frames
  import opened Echo
  import opened HotUpgrade
  import opened Server

  ghost predicate IsRun(states: seq<System>, steps: seq<Step>) {
    && |states| == |steps| + 1
    && Init(states[0])
    && forall i :: 0 <= i < |steps| ==> Next(states[i], steps[i], states[i + 1])
  }

  ghost predicate IsSingleRun(states: seq<Single>, steps: seq<Step>) {
    && |states| == |steps| + 1
    && SingleInit(states[0])
    && forall i :: 0 <= i < |steps| ==> SingleNext(states[i], steps[i], states[i + 1])
  }

  /** Those of the first `n` steps that are not part of the upgrade. */
  function Service(steps: seq<Step>, n: nat): seq<Step>
    requires n <= |steps|
  {
    if n == 0 then []
    else if UpgradeStep(steps[n - 1]) then Service(steps, n - 1)
    else Service(steps, n - 1) + [steps[n - 1]]
  }

  lemma {:induction false} RunInv(states: seq<System>, steps: seq<Step>, i: nat)
    requires IsRun(states, steps) && i < |states|
    ensures SystemInv(states[i])
  {
    if i == 0 {
      InitHolds(states[0]);
    } else {
      RunInv(states, steps, i - 1);
      SystemInvKept(states[i - 1], steps[i - 1], states[i]);
    }
  }

  /** The upgrade is invisible: leaving its steps out of a run gives a run of a server that is
      never upgraded, with the same accept queue, streams and closed sessions at every moment. */
  lemma {:induction false} UpgradeInvisible(states: seq<System>, steps: seq<Step>, n: nat)
    returns (single: seq<Single>)
    requires IsRun(states, steps) && n <= |steps|
    ensures IsSingleRun(single, Service(steps, n))
    ensures single[|single| - 1] == Abs(states[n])
  {
    if n == 0 {
      InitHolds(states[0]);
      single := [Abs(states[0])];
    } else {
      var init := UpgradeInvisible(states, steps, n - 1);
      RunInv(states, steps, n - 1);
      single := ExtendSingleRun(init, Service(steps, n - 1), states[n - 1], steps[n - 1], states[n]);
    }
  }

  lemma ExtendSingleRun(init: seq<Single>, done: seq<Step>, s: System, step: Step, s': System)
    returns (single: seq<Single>)
    requires IsSingleRun(init, done) && init[|init| - 1] == Abs(s)
    requires SystemInv(s) && Next(s, step, s')
    ensures IsSingleRun(single, if UpgradeStep(step) then done else done + [step])
    ensures single[|single| - 1] == Abs(s')
  {
    if UpgradeStep(step) {
      UpgradeStepInvisible(s, step, s');
      single := init;
    } else {
      ServiceStepRefines(s, step, s');
      single := init + [Abs(s')];
      OneMoreStep(init, done, step, Abs(s'));
    }
  }

  lemma OneMoreStep(run: seq<Single>, steps: seq<Step>, step: Step, next: Single)
    requires IsSingleRun(run, steps) && SingleNext(run[|run| - 1], step, next)
    ensures IsSingleRun(run + [next], steps + [step])
  {
  }

  /** At every moment of every run the client has received a prefix of the echo of what it sent;
      whenever its owner waits for input it has the whole echo of what was read, and at a frame
      boundary nothing read is left unanswered. */
  lemma SeamlessHandoff(states: seq<System>, steps: seq<Step>, i: nat, id: Session)
    requires IsRun(states, steps) && i < |states|
    requires id in states[i].streams
    ensures
      var st := states[i].streams[id];
      && st.sent <= Concat(Decode(Arrived(st)))
      && (id in Owners(states[i]) && Owners(states[i])[id].interest == In ==>
            && st.sent == Concat(Decode(st.consumed))
            && Rest(st.consumed) == Owners(states[i])[id].conn.buf)
  {
    RunInv(states, steps, i);
    var s := Abs(states[i]);
    var st := s.streams[id];
    FaithfulToArrived(st);
    if id in s.conns {
      EchoesFaithful(s.conns[id].conn, st, s.conns[id].interest);
    }
  }

  /** The replies that calls of GetRequest prepared for a session in the first `n` steps, in order, by
      whichever process. */
  function Replies(steps: seq<Step>, n: nat, id: Session): seq<Bytes>
    requires n <= |steps|
  {
    if n == 0 then []
    else Replies(steps, n - 1, id) + Prepared(steps[n - 1], id)
  }

  /** The reply that a step prepares for a session. */
  function Prepared(step: Step, id: Session): seq<Bytes> {
    if step.Readable? && step.id == id && step.rs == ReadAll then [step.conn.reply] else []
  }

  /** The frames read from a session. */
  function FramesOf(s: System, id: Session): seq<Bytes> {
    if id in s.streams then Decode(s.streams[id].consumed) else []
  }

  lemma BufferIsRest(s: System, who: Who, id: Session)
    requires SystemInv(s) && Handles(s, who, id) && id in s.streams
    ensures Proc(s, who).conns[id].conn.buf == Rest(s.streams[id].consumed)
  {
    assert Abs(s).conns[id] == Proc(s, who).conns[id];
  }

  lemma OtherStepsReadNothing(s: System, step: Step, s': System, id: Session)
    requires Next(s, step, s') && !(step.Readable? && step.id == id)
    ensures id in s.streams ==> id in s'.streams && s'.streams[id].consumed == s.streams[id].consumed
    ensures id !in s.streams && id in s'.streams ==> s'.streams[id].consumed == []
  {
    match step
    case Connect(_) =>
    case Send(_, _) =>
    case Finish(_) =>
    case Break(_) =>
    case Readable(_, _, _, _, _, _) =>
    case Writable(_, _, _, _, _, _) =>
    case _ =>
  }

  lemma StepReplies(s: System, step: Step, s': System, id: Session)
    requires Next(s, step, s')
    requires step.Readable? && step.id == id ==> Proc(s, step.who).conns[id].conn.buf == Rest(s.streams[id].consumed)
    ensures FramesOf(s', id) == FramesOf(s, id) + Prepared(step, id)
  {
    if step.Readable? && step.id == id {
      ReadsDecode(Proc(s, step.who).conns[id].conn, s.streams[id], step.n, step.rs, step.conn, step.stream);
    } else {
      OtherStepsReadNothing(s, step, s', id);
      NothingDecoded();
    }
  }

  lemma NextReplies(states: seq<System>, steps: seq<Step>, i: nat, id: Session)
    requires IsRun(states, steps) && i < |steps|
    ensures FramesOf(states[i + 1], id) == FramesOf(states[i], id) + Prepared(steps[i], id)
  {
    RunInv(states, steps, i);
    assert Next(states[i], steps[i], states[i + 1]);
    if steps[i].Readable? && steps[i].id == id {
      BufferIsRest(states[i], steps[i].who, id);
    }
    StepReplies(states[i], steps[i], states[i + 1], id);
  }

  /** The decoder refines the framing, frame by frame: in every run, however the input is cut and whenever
      the session moves, the replies prepared for it are exactly the frames of what was read from it. */
  lemma RepliesAreFrames(states: seq<System>, steps: seq<Step>, i: nat, id: Session)
    requires IsRun(states, steps) && i < |states|
    ensures Replies(steps, i, id) == FramesOf(states[i], id)
  {
    var frames := seq(|states|, k requires 0 <= k < |states| => FramesOf(states[k], id));
    forall k | 0 <= k < |steps| ensures frames[k + 1] == frames[k] + Prepared(steps[k], id) {
      NextReplies(states, steps, k, id);
    }
    RepliesAccumulate(steps, frames, i, id);
  }

  lemma {:induction false} RepliesAccumulate(steps: seq<Step>, frames: seq<seq<Bytes>>, i: nat, id: Session)
    requires |frames| == |steps| + 1 && frames[0] == [] && i < |frames|
    requires forall k :: 0 <= k < |steps| ==> frames[k + 1] == frames[k] + Prepared(steps[k], id)
    ensures Replies(steps, i, id) == frames[i]
  {
    if i > 0 {
      RepliesAccumulate(steps, frames, i - 1, id);
      assert frames[i - 1 + 1] == frames[i - 1] + Prepared(steps[i - 1], id);
    }
  }

  /** A client that has sent whole requests, all of them read by a server that waits for input
      again, has received exactly their payloads in order, whichever process answered which. */
  lemma AllRequestsAnswered(states: seq<System>, steps: seq<Step>, i: nat, id: Session, payloads: seq<Bytes>)
    requires IsRun(states, steps) && i < |states|
    requires id in Owners(states[i]) && Owners(states[i])[id].interest == In
    requires id in states[i].streams && states[i].streams[id].unread == []
    requires forall p :: p in payloads ==> GoodLen(|p|)
    requires Arrived(states[i].streams[id]) == Request(payloads)
    ensures states[i].streams[id].sent == Concat(payloads)
    ensures Owners(states[i])[id].conn == FRESH
  {
    var st := states[i].streams[id];
    SeamlessHandoff(states, steps, i, id);
    RunInv(states, steps, i);
    DecodeRequest(payloads);
    assert st.consumed == Request(payloads);
    assert Abs(states[i]).conns[id] == Owners(states[i])[id];
  }

  /** In every reachable state a session is queued, closed, or owned; an owned session is open in
      a process or both, and never can two processes act on it. The same for the listener. */
  lemma Ownership(states: seq<System>, steps: seq<Step>, i: nat, id: Session)
    requires IsRun(states, steps) && i < |states|
    ensures
      var s := states[i];
      var inRetiring, inSuccessor := id in s.retiring.conns, id in s.successor.conns;
      && (id in s.streams ==> id in s.backlog || id in s.closed || inRetiring || inSuccessor)
      && (inSuccessor || (inRetiring && id !in Moved(s)) ==> id in s.streams && id !in s.backlog && id !in s.closed)
      && !(Handles(s, Retiring, id) && Handles(s, Successor, id))
      && (inRetiring && inSuccessor ==> s.sender == Blocked(Connection(id)) && s.wire == [])
      && (s.retiring.listening || s.successor.listening)
      && !(CanRun(s, Retiring) && s.retiring.listening && s.successor.listening)
  {
    RunInv(states, steps, i);
    var s := states[i];
    assert Placed(Abs(s));
    assert id in Owners(s) <==> id in s.successor.conns || (id in s.retiring.conns && id !in Moved(s));
  }

  /** While a descriptor is on the wire its session is between requests, with everything owed
      already sent, and neither process can touch it. */
  lemma InFlightSessionsAreQuiet(states: seq<System>, steps: seq<Step>, i: nat, id: Session)
    requires IsRun(states, steps) && i < |states|
    requires Connection(id) in states[i].wire
    ensures
      var s := states[i];
      && !Handles(s, Retiring, id) && !Handles(s, Successor, id)
      && id in s.streams
      && Rest(s.streams[id].consumed) == [] && s.streams[id].sent == Owed(s.streams[id])
  {
    RunInv(states, steps, i);
    var s := states[i];
    assert s.sender == Blocked(Connection(id));
    assert Abs(s).conns[id] == ACCEPTED;
    EchoesFaithful(FRESH, s.streams[id], In);
  }

  /** Nothing a client has sent or received is ever taken back. */
  lemma {:induction false} StreamsOnlyGrow(states: seq<System>, steps: seq<Step>, i: nat, j: nat, id: Session)
    requires IsRun(states, steps) && i <= j < |states|
    requires id in states[i].streams
    ensures id in states[j].streams
    ensures states[i].streams[id].sent <= states[j].streams[id].sent
    ensures Arrived(states[i].streams[id]) <= Arrived(states[j].streams[id])
    decreases j - i
  {
    if i < j {
      StreamGrows(states[i], steps[i], states[i + 1], id);
      StreamsOnlyGrow(states, steps, i + 1, j, id);
    }
  }

  /** Steps on the stream of a session. */
  predicate OfClient(step: Step, id: Session) {
    (step.Send? || step.Finish? || step.Break? || step.Readable? || step.Writable?) && step.id == id
  }

  lemma StreamGrows(s: System, step: Step, s': System, id: Session)
    requires Next(s, step, s') && id in s.streams
    ensures id in s'.streams
    ensures s.streams[id].sent <= s'.streams[id].sent
    ensures Arrived(s.streams[id]) <= Arrived(s'.streams[id])
  {
    if OfClient(step, id) {
      if step.Readable? {
        ReadsKeepArrived(s.streams[id], step.n, step.stream);
      }
    } else {
      OtherStreamsKept(s, step, s', id);
    }
  }

  lemma OtherStreamsKept(s: System, step: Step, s': System, id: Session)
    requires Next(s, step, s') && id in s.streams
    requires !OfClient(step, id)
    ensures id in s'.streams && s'.streams[id] == s.streams[id]
  {
    match step
    case Connect(_) =>
    case Send(_, _) =>
    case Finish(_) =>
    case Break(_) =>
    case Readable(_, _, _, _, _, _) =>
    case Writable(_, _, _, _, _, _) =>
    case _ =>
  }

  lemma ReadsKeepArrived(st: Stream, n: nat, st': Stream)
    requires n <= |st.unread| && st' == Taken(st, n)
    ensures Arrived(st') == Arrived(st)
  {
    assert st.unread == st.unread[..n] + st.unread[n..];
  }

  /** The blocked sender is never stuck: the receive and the reply are always possible, and after
      them it runs again, having let go of exactly the descriptor it sent. */
  lemma SenderUnblocks(s: System) returns (rest: seq<System>, steps: seq<Step>)
    requires SystemInv(s) && s.sender.Blocked?
    ensures |rest| == |steps| + 1 <= 3 && rest[0] == s
    ensures forall i :: 0 <= i < |steps| ==> Next(rest[i], steps[i], rest[i + 1])
    ensures forall i :: 0 <= i < |steps| ==> steps[i].Receive? || steps[i].Resume?
    ensures
      var t := rest[|rest| - 1];
      && SystemInv(t) && t.sender == Running && Abs(t) == Abs(s) && t.upgrading == s.upgrading
      && match s.sender.item
         case Listener => !t.retiring.listening && t.successor.listening && t.retiring.conns == s.retiring.conns
         case Connection(id) => t.retiring.conns == s.retiring.conns - {id}
  {
    var mid := s;
    rest, steps := [s], [];
    if s.wire != [] {
      var t := s.(wire := s.wire[1..], acks := s.acks + 1);
      mid := match s.wire[0]
        case Listener => t.(successor := s.successor.(listening := true))
        case Connection(id) => t.(successor := s.successor.(conns := s.successor.conns[id := ACCEPTED]));
      assert Next(s, Receive, mid);
      UpgradeStepInvisible(s, Receive, mid);
      SystemInvKept(s, Receive, mid);
      rest, steps := [s, mid], [Receive];
    }
    var t := mid.(sender := Running, acks := mid.acks - 1);
    var last := match mid.sender.item
      case Listener => t.(retiring := mid.retiring.(listening := false))
      case Connection(id) => t.(retiring := mid.retiring.(conns := mid.retiring.conns - {id}));
    assert Next(mid, Resume, last);
    UpgradeStepInvisible(mid, Resume, last);
    SystemInvKept(mid, Resume, last);
    rest, steps := rest + [last], steps + [Resume];
  }

  /** An event on which the event loop hands the session off is three steps of the step system: the
      descriptor is sent, received and let go. The session moves with a fresh connection and its stream
      untouched, and no client can tell. */
  lemma HandsOffIsSteps(s: System, id: Session, ev: Event) returns (run: seq<System>)
    requires SystemInv(s) && s.upgrading && Handles(s, Retiring, id)
    requires ev.readable ==> s.retiring.conns[id].interest == In
    requires HandsOff(s.retiring.conns[id], ev, s.upgrading)
    ensures |run| == 4 && run[0] == s && run[3] == LetGo(s, id)
    ensures Next(run[0], Handoff(id), run[1]) && Next(run[1], Receive, run[2]) && Next(run[2], Resume, run[3])
    ensures run[3].retiring == s.retiring.(conns := s.retiring.conns - {id})
    ensures run[3].successor == s.successor.(conns := s.successor.conns[id := ACCEPTED])
    ensures run[3].streams == s.streams && run[3].sender == Running && Abs(run[3]) == Abs(s) && SystemInv(run[3])
  {
    run := [s, Sent(s, id), Received(s, id), LetGo(s, id)];
    SendIsStep(s, id);
    ReceiveIsStep(s, id);
    ResumeIsStep(s, id);
  }

  /** The states of the transfer of a session. */
  function Sent(s: System, id: Session): System {
    s.(sender := Blocked(Connection(id)), wire := [Connection(id)])
  }

  function Received(s: System, id: Session): System {
    s.(sender := Blocked(Connection(id)), wire := [], acks := 1,
       successor := s.successor.(conns := s.successor.conns[id := ACCEPTED]))
  }

  function LetGo(s: System, id: Session): System {
    s.(successor := s.successor.(conns := s.successor.conns[id := ACCEPTED]),
       retiring := s.retiring.(conns := s.retiring.conns - {id}))
  }

  lemma SendIsStep(s: System, id: Session)
    requires SystemInv(s) && s.sender == Running && MustHandOff(s, Retiring, id)
    ensures Next(s, Handoff(id), Sent(s, id)) && SystemInv(Sent(s, id)) && Abs(Sent(s, id)) == Abs(s)
  {
    assert s.wire + [Connection(id)] == [Connection(id)];
    assert Next(s, Handoff(id), Sent(s, id));
    UpgradeStepInvisible(s, Handoff(id), Sent(s, id));
    SystemInvKept(s, Handoff(id), Sent(s, id));
  }

  lemma ReceiveIsStep(s: System, id: Session)
    requires SystemInv(Sent(s, id)) && s.acks == 0
    ensures Next(Sent(s, id), Receive, Received(s, id)) && SystemInv(Received(s, id))
    ensures Abs(Received(s, id)) == Abs(Sent(s, id))
  {
    assert Sent(s, id).wire[1..] == [];
    assert Next(Sent(s, id), Receive, Received(s, id));
    UpgradeStepInvisible(Sent(s, id), Receive, Received(s, id));
    SystemInvKept(Sent(s, id), Receive, Received(s, id));
  }

  lemma ResumeIsStep(s: System, id: Session)
    requires SystemInv(Received(s, id)) && s.acks == 0 && s.wire == [] && s.sender == Running
    ensures Next(Received(s, id), Resume, LetGo(s, id)) && SystemInv(LetGo(s, id))
    ensures Abs(LetGo(s, id)) == Abs(Received(s, id))
  {
    assert Next(Received(s, id), Resume, LetGo(s, id));
    UpgradeStepInvisible(Received(s, id), Resume, LetGo(s, id));
    SystemInvKept(Received(s, id), Resume, LetGo(s, id));
  }

  /** Every event that the event loop serves without handing the session off is a step of the step
      system. With the hand-offs above, what holds in all its runs holds of the dispatch code. */
  lemma ServedEventIsStep(s: System, who: Who, id: Session, ev: Event, kept: Option<Entry>, st: Stream)
    returns (step: Step)
    requires Handles(s, who, id) && id in s.streams && (ev.failed ==> s.streams[id].link == Broken)
    requires ev.failed || (ev.readable && Proc(s, who).conns[id].interest == In)
                       || (!ev.readable && ev.writable && Proc(s, who).conns[id].interest == Out)
    requires !HandsOff(Proc(s, who).conns[id], ev, who == Retiring && s.upgrading)
    requires Served(Proc(s, who).conns[id], s.streams[id], ev, who == Retiring && s.upgrading, kept, st)
    ensures Next(s, step, SetEntry(s.(streams := s.streams[id := st]), who, id, kept))
  {
    var e := Proc(s, who).conns[id];
    if ev.failed {
      step := Hangup(who, id);
      assert s.streams[id := st] == s.streams;
    } else if ev.readable {
      var n: nat, rs, conn :| Reads(e.conn, s.streams[id], n, rs, conn, st) && kept == AfterRead(conn, rs);
      step := Readable(who, id, n, rs, conn, st);
    } else {
      var n: nat, ws, conn :| Writes(e.conn, s.streams[id], n, ws, conn, st) && kept == AfterWrite(conn, ws);
      step := Writable(who, id, n, ws, conn, st);
    }
  }

  // ---------------------------------------------------------------------------------------
  // Sessions end for a cause

  /** No session is dropped: in every run a session that either process has closed is one whose connection broke,
      whose client sent a header that the server rejects, or whose client closed its end after which everything
      it sent was read and answered. */
  lemma ClosedForCause(states: seq<System>, steps: seq<Step>, i: nat, id: Session)
    requires IsRun(states, steps) && i < |states| && id in states[i].closed
    ensures id in states[i].streams && Over(states[i].streams[id])
  {
    RunInv(states, steps, i);
    assert Placed(Abs(states[i]));
  }

  lemma {:induction false} RestIsLess(bs: Bytes, more: Bytes)
    requires Rejects(Rest(bs))
    ensures Rest(bs + more) == Rest(bs) + more
  {
    DecodeExtend(bs, more);
    HeaderStable(Rest(bs), more);
  }

  /** A part of well-formed requests never leads to a rejected header. */
  lemma PartOfRequests(bs: Bytes, more: Bytes, payloads: seq<Bytes>)
    requires bs + more == Request(payloads) && forall p :: p in payloads ==> GoodLen(|p|)
    ensures !Rejects(Rest(bs))
  {
    DecodeRequest(payloads);
    if Rejects(Rest(bs)) {
      RestIsLess(bs, more);
      assert false;
    }
  }

  /** So a client that sends well-formed requests, whole or in part, over a connection that holds is never
      dropped, however often it is moved. */
  lemma NobodyIsDropped(states: seq<System>, steps: seq<Step>, i: nat, id: Session, more: Bytes, payloads: seq<Bytes>)
    requires IsRun(states, steps) && i < |states| && id in states[i].streams && states[i].streams[id].link == Up
    requires Arrived(states[i].streams[id]) + more == Request(payloads) && forall p :: p in payloads ==> GoodLen(|p|)
    ensures id !in states[i].closed
  {
    var st := states[i].streams[id];
    Regroup(st.consumed, st.unread, more);
    PartOfRequests(st.consumed, st.unread + more, payloads);
    if id in states[i].closed {
      ClosedForCause(states, steps, i, id);
    }
  }

  /** And one that closes its end after well-formed requests is closed only when all of them are answered. */
  lemma FinishedIsAnswered(states: seq<System>, steps: seq<Step>, i: nat, id: Session, payloads: seq<Bytes>)
    requires IsRun(states, steps) && i < |states| && id in states[i].closed
    requires id in states[i].streams && states[i].streams[id].link == Shut
    requires Arrived(states[i].streams[id]) == Request(payloads) && forall p :: p in payloads ==> GoodLen(|p|)
    ensures states[i].streams[id].sent == Concat(payloads)
  {
    var st := states[i].streams[id];
    ClosedForCause(states, steps, i, id);
    PartOfRequests(st.consumed, st.unread, payloads);
    DecodeRequest(payloads);
    assert st.consumed == Request(payloads);
  }
}
