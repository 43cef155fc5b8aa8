/** Group commit: writers queue up, the one at the front writes a batch built from its own and some
    of the batches behind it, with the lock released, and hands the result to the others. Every
    critical section under the lock is one step; sleeping and waking are explicit. */
module WriteQueue {
  import opened Coding
  import opened Sequences
  import opened Batches

  type Writer = nat

  datatype Status = Ok | Failed(code: nat)

  /** A batch, or none for a writer that only forces a compaction. */
  type Batch = Option<seq<Operation>>

  /** The work of a leader: how many writers it serves, and the merged operations with the sequence
      number of the first. */
  datatype Job = Job(size: nat, ops: seq<Operation>, base: nat)

  datatype Phase =
    | Waiting(awake: bool)                 // in the queue, in or about to re-check the wait loop
    | Preparing                            // past the loop, in MakeRoomForWrite
    | Logging(job: Job)                    // lock released: writing the log
    | Inserting(job: Job, next: nat)       // lock released: filling the memtable
    | Finishing(job: Job, status: Status)  // about to publish, under the lock again
    | Done(status: Status, awake: bool)    // served by a leader, still in the wait loop
    | Returned(status: Status)

  datatype Group = Group(members: seq<Writer>, ops: seq<Operation>, base: nat, status: Status)

  datatype State = State(
    queue: seq<Writer>,
    phase: map<Writer, Phase>,
    batch: map<Writer, Batch>,
    lastSequence: nat,
    mem: seq<(nat, Operation)>,
    arrivals: seq<Writer>,        // in the order of push_back
    groups: seq<Group>)           // in the order of publication

  datatype Step =
    | Arrive(w: Writer, b: Batch)
    | Wake(w: Writer)
    | Sleep(w: Writer)
    | Lead(w: Writer)
    | Prepare(w: Writer, room: Status, size: nat)
    | AddRecord(w: Writer, status: Status)
    | InsertOne(w: Writer)
    | InsertedAll(w: Writer)
    | Publish(w: Writer)
    | Return(w: Writer)

  /** The operations of some writers, in order; a missing batch contributes none. */
  function Merged(ws: seq<Writer>, batch: map<Writer, Batch>): seq<Operation> {
    if ws == [] then []
    else (if ws[0] in batch && batch[ws[0]].Some? then batch[ws[0]].value else []) + Merged(ws[1..], batch)
  }

  /** Operations with consecutive sequence numbers. */
  function Numbered(ops: seq<Operation>, base: nat): (r: seq<(nat, Operation)>)
    ensures |r| == |ops|
  {
    seq(|ops|, i requires 0 <= i < |ops| => (base + i, ops[i]))
  }

  /** The flag and the status of a served writer are set; that alone does not wake it. */
  function MarkDone(p: Phase, status: Status): Phase {
    Done(status, p.Waiting? && p.awake)
  }

  /** Signalling the condition variable of a writer in the wait loop. */
  function Signal(p: Phase): Phase {
    match p
    case Waiting(_) => Waiting(true)
    case Done(status, _) => Done(status, true)
    case _ => p
  }

  /** What the leader does to a writer it has served. */
  function Served(p: Phase, status: Status): (r: Phase)
    ensures r == Done(status, true)
  {
    Signal(MarkDone(p, status))
  }

  /** The third phase: every served writer but the leader is marked done and signalled, and so is the
      new front of the queue. */
  function AfterPublish(queue: seq<Writer>, phase: map<Writer, Phase>, w: Writer, size: nat, status: Status)
    : map<Writer, Phase>
    requires size <= |queue|
  {
    map x | x in phase ::
      if x == w then Returned(status)
      else if x in queue[..size] then Served(phase[x], status)
      else if size < |queue| && x == queue[size] then Signal(phase[x])
      else phase[x]
  }

  /** A new writer at the back of the queue: it waits unless it is alone. */
  function Arrived(s: State, w: Writer, b: Batch): State {
    s.(queue := s.queue + [w], arrivals := s.arrivals + [w], batch := s.batch[w := b],
       phase := s.phase[w := Waiting(s.queue == [])])
  }

  /** Publication as an update of the state. */
  function Published(s: State, w: Writer, job: Job, status: Status): State
    requires job.size <= |s.queue|
  {
    s.(phase := AfterPublish(s.queue, s.phase, w, job.size, status), queue := s.queue[job.size..],
       lastSequence := s.lastSequence + |job.ops|,
       groups := s.groups + [Group(s.queue[..job.size], job.ops, job.base, status)])
  }

  predicate AtFront(s: State, w: Writer) {
    s.queue != [] && s.queue[0] == w && w in s.phase
  }

  predicate Enabled(s: State, step: Step) {
    && step.w in s.phase
    && var p := s.phase[step.w];
       match step
       case Arrive(_, _) => false
       case Wake(w) => p.Waiting?
       case Sleep(w) => p == Waiting(true) && !AtFront(s, w)
       case Lead(w) => p == Waiting(true) && AtFront(s, w)
       case Prepare(w, room, size) =>
         p == Preparing && AtFront(s, w) && w in s.batch && (room == Ok && s.batch[w].Some? ==> 1 <= size <= |s.queue|)
       case AddRecord(w, _) => p.Logging?
       case InsertOne(w) => p.Inserting? && p.next < |p.job.ops|
       case InsertedAll(w) => p.Inserting? && p.next == |p.job.ops|
       case Publish(w) => p.Finishing? && AtFront(s, w) && p.job.size <= |s.queue|
       case Return(w) => p.Done? && p.awake
  }

  /** The next phase of the writer that moves. */
  function NewPhase(s: State, step: Step): Phase
    requires Enabled(s, step)
  {
    var p := s.phase[step.w];
    match step
    case Wake(_) => Waiting(true)
    case Sleep(_) => Waiting(false)
    case Lead(_) => Preparing
    case Prepare(w, room, size) =>
      if room == Ok && s.batch[w].Some?
      then Logging(Job(size, Merged(s.queue[..size], s.batch), s.lastSequence + 1))
      else Finishing(Job(1, [], s.lastSequence + 1), room)
    case AddRecord(_, status) => if status == Ok then Inserting(p.job, 0) else Finishing(p.job, status)
    case InsertOne(_) => Inserting(p.job, p.next + 1)
    case InsertedAll(_) => Finishing(p.job, Ok)
    case Publish(_) => Returned(p.status)
    case Return(_) => Returned(p.status)
  }

  function NewMem(s: State, step: Step): seq<(nat, Operation)>
    requires Enabled(s, step)
  {
    var p := s.phase[step.w];
    if step.InsertOne? then s.mem + [(p.job.base + p.next, p.job.ops[p.next])] else s.mem
  }

  predicate Next(s: State, step: Step, s': State) {
    match step
    case Arrive(w, b) =>
      && w !in s.phase
      && s' == Arrived(s, w, b)
    case Publish(w) =>
      && Enabled(s, step)
      && s' == Published(s, w, s.phase[w].job, s.phase[w].status)
    case _ =>
      && Enabled(s, step)
      && s' == s.(phase := s.phase[step.w := NewPhase(s, step)], mem := NewMem(s, step))
  }

  ghost predicate Init(s: State) {
    s == State([], map[], map[], 0, [], [], [])
  }

  predicate Leading(p: Phase) {
    p.Preparing? || p.Logging? || p.Inserting? || p.Finishing?
  }

  function Members(groups: seq<Group>): seq<Writer> {
    if groups == [] then [] else Members(groups[..|groups| - 1]) + groups[|groups| - 1].members
  }

  function Operations(groups: seq<Group>): seq<Operation> {
    if groups == [] then [] else Operations(groups[..|groups| - 1]) + groups[|groups| - 1].ops
  }

  /** What the published groups put into the memtable. */
  function Stored(groups: seq<Group>): seq<(nat, Operation)> {
    if groups == [] then []
    else
      var g := groups[|groups| - 1];
      Stored(groups[..|groups| - 1]) + if g.status == Ok then Numbered(g.ops, g.base) else []
  }

  /** Who is where: only the front of the queue leads, and it is never left asleep. */
  ghost predicate QueueInv(s: State) {
    && NoDuplicates(s.arrivals)
    && s.arrivals == Members(s.groups) + s.queue
    && (forall w :: w in s.phase <==> w in s.arrivals)
    && (forall w :: w in s.phase <==> w in s.batch)
    && (forall w :: w in s.queue ==> s.phase[w].Waiting? || (Leading(s.phase[w]) && w == s.queue[0]))
    && (s.queue != [] ==> s.phase[s.queue[0]] != Waiting(false))
  }

  predicate HasJob(p: Phase) {
    p.Logging? || p.Inserting? || p.Finishing?
  }

  /** The leader's job is the merge of the batches at the front of the queue, or nothing when making
      room failed, and its numbers follow those already used. */
  ghost predicate JobOk(s: State, p: Phase)
    requires HasJob(p)
  {
    && p.job.base == s.lastSequence + 1 && 1 <= p.job.size <= |s.queue|
    && ((p.Finishing? && p.status != Ok && p.job.size == 1 && p.job.ops == [])
        || p.job.ops == Merged(s.queue[..p.job.size], s.batch))
    && (p.Inserting? ==> p.next <= |p.job.ops|)
  }

  ghost predicate JobInv(s: State) {
    forall w :: w in s.phase && HasJob(s.phase[w]) ==> JobOk(s, s.phase[w])
  }

  /** Published groups: their sequence ranges are adjacent, each member has the group's status, and an
      acknowledged group holds all its members' operations. */
  ghost predicate GroupOk(s: State, i: nat)
    requires i < |s.groups|
  {
    var g := s.groups[i];
    && g.members != []
    && g.base == |Operations(s.groups[..i])| + 1
    && (g.status == Ok ==> g.ops == Merged(g.members, s.batch))
    && (forall w :: w in g.members ==>
          w in s.phase && (s.phase[w] == Done(g.status, true) || s.phase[w] == Returned(g.status)))
  }

  ghost predicate GroupInv(s: State) {
    && s.lastSequence == |Operations(s.groups)|
    && forall i :: 0 <= i < |s.groups| ==> GroupOk(s, i)
  }

  /** What the leader has put into the memtable so far. */
  function InProgress(p: Phase): seq<(nat, Operation)> {
    match p
    case Inserting(job, next) => if next <= |job.ops| then Numbered(job.ops, job.base)[..next] else []
    case Finishing(job, status) => if status == Ok then Numbered(job.ops, job.base) else []
    case _ => []
  }

  function FrontPhase(s: State): Phase {
    if s.queue != [] && s.queue[0] in s.phase then s.phase[s.queue[0]] else Preparing
  }

  ghost predicate MemInv(s: State) {
    s.mem == Stored(s.groups) + InProgress(FrontPhase(s))
  }

  ghost predicate Inv(s: State) {
    QueueInv(s) && JobInv(s) && GroupInv(s) && MemInv(s)
  }

  lemma InitInv(s: State)
    requires Init(s)
    ensures Inv(s)
  {
  }

  lemma Snoc(groups: seq<Group>, g: Group)
    ensures Members(groups + [g]) == Members(groups) + g.members
    ensures Operations(groups + [g]) == Operations(groups) + g.ops
    ensures Stored(groups + [g]) == Stored(groups) + if g.status == Ok then Numbered(g.ops, g.base) else []
  {
    assert (groups + [g])[..|groups|] == groups;
  }

  lemma {:induction false} MergedDependsOn(ws: seq<Writer>, a: map<Writer, Batch>, b: map<Writer, Batch>)
    requires forall w :: w in ws ==> w in a && w in b && a[w] == b[w]
    ensures Merged(ws, a) == Merged(ws, b)
  {
    if ws != [] { MergedDependsOn(ws[1..], a, b); }
  }

  lemma {:induction false} MemberOf(groups: seq<Group>, w: Writer) returns (i: nat)
    requires w in Members(groups)
    ensures i < |groups| && w in groups[i].members
  {
    var last := |groups| - 1;
    if w in groups[last].members {
      i := last;
    } else {
      i := MemberOf(groups[..last], w);
    }
  }

  lemma {:induction false} MembersOf(groups: seq<Group>, i: nat, w: Writer)
    requires i < |groups| && w in groups[i].members
    ensures w in Members(groups)
  {
    if i < |groups| - 1 {
      MembersOf(groups[..|groups| - 1], i, w);
    }
  }

  // ---------------------------------------------------------------------------------------
  // Steps other than arrival and publication change one writer's phase, and at most add to mem.

  /** A change of phase of one queued writer. */
  lemma PhaseChange(s: State, w: Writer, p: Phase, mem: seq<(nat, Operation)>)
    requires Inv(s) && Fits(s, w, p, mem)
    ensures Inv(s.(phase := s.phase[w := p], mem := mem))
  {
    var s' := s.(phase := s.phase[w := p], mem := mem);
    PhaseChangeGroups(s, w, p, mem);
    forall x | x in s'.phase && HasJob(s'.phase[x]) ensures JobOk(s', s'.phase[x]) {
      assert x != w ==> JobOk(s, s.phase[x]);
    }
  }

  lemma PhaseChangeGroups(s: State, w: Writer, p: Phase, mem: seq<(nat, Operation)>)
    requires QueueInv(s) && GroupInv(s) && w in s.queue
    ensures GroupInv(s.(phase := s.phase[w := p], mem := mem))
  {
    var s' := s.(phase := s.phase[w := p], mem := mem);
    forall i | 0 <= i < |s'.groups| ensures GroupOk(s', i) {
      assert GroupOk(s, i);
      forall x | x in s.groups[i].members ensures x != w {
        MembersOf(s.groups, i, x);
        Apart(Members(s.groups), s.queue, x, w);
      }
    }
  }

  lemma Apart(a: seq<Writer>, b: seq<Writer>, x: Writer, y: Writer)
    requires NoDuplicates(a + b) && x in a && y in b
    ensures x != y
  {
    var i, j :| 0 <= i < |a| && a[i] == x && 0 <= j < |b| && b[j] == y;
    assert (a + b)[i] == x && (a + b)[|a| + j] == y;
  }

  lemma QueuedIsIn(s: State, w: Writer)
    requires QueueInv(s) && GroupInv(s) && w in s.phase && (s.phase[w].Waiting? || Leading(s.phase[w]))
    ensures w in s.queue
    ensures Leading(s.phase[w]) ==> w == s.queue[0]
  {
    MemberIsAnswered(s, w);
    assert w in Members(s.groups) || w in s.queue;
  }

  lemma MemberIsAnswered(s: State, w: Writer)
    requires GroupInv(s) && w in s.phase
    ensures w in Members(s.groups) ==> s.phase[w].Done? || s.phase[w].Returned?
  {
    if w in Members(s.groups) {
      var i := MemberOf(s.groups, w);
      assert GroupOk(s, i);
    }
  }

  predicate LocalStep(step: Step) {
    !step.Arrive? && !step.Publish? && !step.Return?
  }

  /** The new phase of a queued writer fits the state. */
  ghost predicate Fits(s: State, w: Writer, p: Phase, mem: seq<(nat, Operation)>) {
    && w in s.queue && w in s.phase
    && (p.Waiting? || (Leading(p) && w == s.queue[0]))
    && (w == s.queue[0] ==> p != Waiting(false))
    && (HasJob(p) ==> JobOk(s, p))
    && mem == Stored(s.groups) + (if w == s.queue[0] then InProgress(p) else InProgress(FrontPhase(s)))
  }

  lemma PrepareFits(s: State, step: Step)
    requires MemInv(s) && step.Prepare? && Enabled(s, step)
    ensures Fits(s, step.w, NewPhase(s, step), s.mem)
  {
    assert s.queue[..1] == [step.w];
    assert Merged([step.w], s.batch) == if s.batch[step.w].Some? then s.batch[step.w].value else [];
  }

  lemma LoggedFits(s: State, step: Step)
    requires MemInv(s) && step.AddRecord? && Enabled(s, step) && AtFront(s, step.w) && JobOk(s, s.phase[step.w])
    ensures Fits(s, step.w, NewPhase(s, step), s.mem)
  {
    var job := s.phase[step.w].job;
    assert Numbered(job.ops, job.base)[..0] == [];
  }

  lemma InsertFits(s: State, step: Step)
    requires MemInv(s) && step.InsertOne? && Enabled(s, step) && AtFront(s, step.w) && JobOk(s, s.phase[step.w])
    ensures Fits(s, step.w, NewPhase(s, step), NewMem(s, step))
  {
    var Inserting(job, next) := s.phase[step.w];
    assert FrontPhase(s) == s.phase[step.w] && NewPhase(s, step) == Inserting(job, next + 1);
    TakeOneMore(Stored(s.groups), Numbered(job.ops, job.base), next);
  }

  lemma TakeOneMore(front: seq<(nat, Operation)>, all: seq<(nat, Operation)>, n: nat)
    requires n < |all|
    ensures front + all[..n] + [all[n]] == front + all[..n + 1]
  {
  }

  lemma InsertedFits(s: State, step: Step)
    requires MemInv(s) && step.InsertedAll? && Enabled(s, step) && AtFront(s, step.w) && JobOk(s, s.phase[step.w])
    ensures Fits(s, step.w, NewPhase(s, step), s.mem)
  {
    var all := Numbered(s.phase[step.w].job.ops, s.phase[step.w].job.base);
    assert all[..|all|] == all;
  }

  lemma LocalFits(s: State, step: Step)
    requires Inv(s) && LocalStep(step) && Enabled(s, step)
    ensures Fits(s, step.w, NewPhase(s, step), NewMem(s, step))
  {
    QueuedIsIn(s, step.w);
    assert HasJob(s.phase[step.w]) ==> JobOk(s, s.phase[step.w]);
    match step {
      case Wake(_) =>
      case Sleep(_) =>
      case Lead(_) =>
      case Prepare(_, _, _) => PrepareFits(s, step);
      case AddRecord(_, _) => LoggedFits(s, step);
      case InsertOne(_) => InsertFits(s, step);
      case InsertedAll(_) => InsertedFits(s, step);
    }
  }

  /** Every step that concerns one queued writer. */
  lemma LocalKeepsInv(s: State, step: Step, s': State)
    requires Inv(s) && Next(s, step, s') && LocalStep(step)
    ensures Inv(s')
  {
    LocalFits(s, step);
    PhaseChange(s, step.w, NewPhase(s, step), NewMem(s, step));
  }

  lemma ReturnKeepsInv(s: State, w: Writer)
    requires Inv(s) && w in s.phase && s.phase[w].Done?
    ensures Inv(s.(phase := s.phase[w := Returned(s.phase[w].status)]))
  {
    var s' := s.(phase := s.phase[w := Returned(s.phase[w].status)]);
    assert w !in s.queue;
    forall i | 0 <= i < |s'.groups| ensures GroupOk(s', i) {
      assert GroupOk(s, i);
    }
    forall x | x in s'.phase && HasJob(s'.phase[x]) ensures JobOk(s', s'.phase[x]) {
      assert JobOk(s, s.phase[x]);
    }
  }

  lemma ArriveKeepsInv(s: State, w: Writer, b: Batch)
    requires Inv(s) && w !in s.phase
    ensures Inv(Arrived(s, w, b))
  {
    ArriveKeepsQueue(s, w, b);
    ArriveKeepsGroups(s, w, b);
    forall x | x in s.phase && HasJob(s.phase[x]) ensures JobOk(Arrived(s, w, b), s.phase[x]) {
      assert JobOk(s, s.phase[x]);
      ArriveKeepsJob(s, s.phase[x], Arrived(s, w, b));
    }
    assert InProgress(Waiting(true)) == InProgress(Preparing) == [];
  }

  lemma ArriveKeepsQueue(s: State, w: Writer, b: Batch)
    requires QueueInv(s) && w !in s.phase
    ensures QueueInv(Arrived(s, w, b))
  {
    assert Arrived(s, w, b).arrivals == Members(s.groups) + Arrived(s, w, b).queue;
  }

  lemma ArriveKeepsGroups(s: State, w: Writer, b: Batch)
    requires QueueInv(s) && GroupInv(s) && w !in s.phase
    ensures GroupInv(Arrived(s, w, b))
  {
    var s' := Arrived(s, w, b);
    forall i | 0 <= i < |s'.groups| ensures GroupOk(s', i) {
      assert GroupOk(s, i);
      MergedDependsOn(s.groups[i].members, s.batch, s'.batch);
    }
  }

  lemma ArriveKeepsJob(s: State, p: Phase, s': State)
    requires QueueInv(s) && HasJob(p) && JobOk(s, p) && s'.lastSequence == s.lastSequence
    requires |s'.queue| >= |s.queue| && s'.queue[..|s.queue|] == s.queue
    requires forall w :: w in s.queue ==> w in s.batch && w in s'.batch && s'.batch[w] == s.batch[w]
    ensures JobOk(s', p)
  {
    assert s'.queue[..p.job.size] == s.queue[..p.job.size];
    MergedDependsOn(s.queue[..p.job.size], s.batch, s'.batch);
  }

  /** The published group joins the history; the rest of the queue waits, its front awake. */
  lemma PublishKeepsInv(s: State, w: Writer, s': State)
    requires Inv(s) && Next(s, Publish(w), s')
    ensures Inv(s')
  {
    var Finishing(job, status) := s.phase[w];
    assert JobOk(s, s.phase[w]);
    assert s' == Published(s, w, job, status);
    PublishWaiters(s, w, job, status);
    PublishQueue(s, w, job, status);
    PublishGroups(s, w, job, status);
    PublishMem(s, w, job, status);
    PublishJobs(s, w, job, status);
  }

  /** Behind the group everyone still waits. */
  lemma PublishWaiters(s: State, w: Writer, job: Job, status: Status)
    requires QueueInv(s) && AtFront(s, w) && 1 <= job.size <= |s.queue|
    ensures
      var s' := Published(s, w, job, status);
      && s'.phase.Keys == s.phase.Keys
      && (forall x :: x in s'.queue ==> x in s'.phase && s'.phase[x].Waiting?)
      && (s'.queue != [] ==> s'.phase[s'.queue[0]] == Waiting(true))
  {
    var s' := Published(s, w, job, status);
    forall x | x in s'.queue
      ensures x in s'.phase && s'.phase[x].Waiting? && (x == s'.queue[0] ==> s'.phase[x] == Waiting(true))
    {
      QueueSplit(s, job.size, x);
    }
  }

  lemma PublishQueue(s: State, w: Writer, job: Job, status: Status)
    requires QueueInv(s) && job.size <= |s.queue|
    requires
      var s' := Published(s, w, job, status);
      && s'.phase.Keys == s.phase.Keys
      && (forall x :: x in s'.queue ==> x in s'.phase && s'.phase[x].Waiting?)
      && (s'.queue != [] ==> s'.phase[s'.queue[0]] == Waiting(true))
    ensures QueueInv(Published(s, w, job, status))
  {
    var s' := Published(s, w, job, status);
    ArrivalsKept(s.groups, s.queue, s'.groups[|s.groups|], job.size);
  }

  lemma ArrivalsKept(groups: seq<Group>, queue: seq<Writer>, g: Group, size: nat)
    requires size <= |queue| && g.members == queue[..size]
    ensures Members(groups + [g]) + queue[size..] == Members(groups) + queue
  {
    Snoc(groups, g);
    assert queue == queue[..size] + queue[size..];
  }

  lemma PublishMem(s: State, w: Writer, job: Job, status: Status)
    requires MemInv(s) && AtFront(s, w) && s.phase[w] == Finishing(job, status) && job.size <= |s.queue|
    requires var s' := Published(s, w, job, status);
      s'.queue != [] ==> s'.queue[0] in s'.phase && s'.phase[s'.queue[0]] == Waiting(true)
    ensures MemInv(Published(s, w, job, status))
  {
    var s' := Published(s, w, job, status);
    Snoc(s.groups, s'.groups[|s.groups|]);
    assert InProgress(FrontPhase(s')) == [];
  }

  lemma PublishJobs(s: State, w: Writer, job: Job, status: Status)
    requires Inv(s) && AtFront(s, w) && 1 <= job.size <= |s.queue|
    ensures JobInv(Published(s, w, job, status))
  {
    var s' := Published(s, w, job, status);
    forall x | x in s'.phase ensures !HasJob(s'.phase[x]) {
      if HasJob(s.phase[x]) {
        QueuedIsIn(s, x);
        assert x == w;
      }
    }
  }

  /** A writer behind the group is neither its leader nor a member. */
  lemma QueueSplit(s: State, size: nat, x: Writer)
    requires QueueInv(s) && 1 <= size <= |s.queue| && x in s.queue[size..]
    ensures x in s.queue && x !in s.queue[..size] && x != s.queue[0]
  {
    var i :| size <= i < |s.queue| && s.queue[i] == x;
    var m := Members(s.groups);
    assert s.arrivals[|m| + i] == x;
    forall j | 0 <= j < size ensures s.queue[j] != x {
      assert s.arrivals[|m| + j] == s.queue[j];
    }
  }

  lemma PublishGroups(s: State, w: Writer, job: Job, status: Status)
    requires QueueInv(s) && GroupInv(s) && AtFront(s, w)
    requires s.phase[w] == Finishing(job, status) && JobOk(s, s.phase[w])
    ensures GroupInv(Published(s, w, job, status))
  {
    var s' := Published(s, w, job, status);
    Snoc(s.groups, s'.groups[|s.groups|]);
    forall i | 0 <= i < |s'.groups| ensures GroupOk(s', i) {
      if i < |s.groups| {
        PublishOldGroup(s, w, job, status, i);
      } else {
        assert s'.groups[..i] == s.groups;
        assert forall x :: x in s'.groups[i].members ==> x in s.queue;
      }
    }
  }

  lemma PublishOldGroup(s: State, w: Writer, job: Job, status: Status, i: nat)
    requires QueueInv(s) && i < |s.groups| && GroupOk(s, i) && AtFront(s, w) && job.size <= |s.queue|
    ensures GroupOk(Published(s, w, job, status), i)
  {
    var s' := Published(s, w, job, status);
    assert s'.groups[..i] == s.groups[..i];
    forall x | x in s.groups[i].members ensures x in s'.phase && s'.phase[x] == s.phase[x] {
      MembersOf(s.groups, i, x);
      assert x !in s.queue by {
        if x in s.queue { Apart(Members(s.groups), s.queue, x, x); }
      }
    }
  }

  lemma InvKept(s: State, step: Step, s': State)
    requires Inv(s) && Next(s, step, s')
    ensures Inv(s')
  {
    match step
    case Arrive(w, b) => ArriveKeepsInv(s, w, b);
    case Publish(w) => PublishKeepsInv(s, w, s');
    case Return(w) => ReturnKeepsInv(s, w);
    case _ => LocalKeepsInv(s, step, s');
  }

  // ---------------------------------------------------------------------------------------
  // The loop of the third phase

  /** Every writer of `members` but the leader has its answer. */
  function Answered(phase: map<Writer, Phase>, w: Writer, members: seq<Writer>, status: Status): map<Writer, Phase> {
    map x | x in phase :: if x != w && x in members then Served(phase[x], status) else phase[x]
  }

  lemma AnswerOneMore(phase: map<Writer, Phase>, w: Writer, members: seq<Writer>, x: Writer, status: Status)
    requires x in phase
    ensures
      var before := Answered(phase, w, members, status);
      Answered(phase, w, members + [x], status) == if x == w then before else before[x := Served(before[x], status)]
  {
  }

  class WriterList {
    var queue: seq<Writer>
    var phase: map<Writer, Phase>

    /** Sets a writer's status and flag, and signals its condition variable. */
    method AnswerWriter(x: Writer, status: Status)
      requires x in phase
      modifies `phase
      ensures phase == old(phase)[x := Served(old(phase)[x], status)]
    {
      phase := phase[x := MarkDone(phase[x], status)];
      phase := phase[x := Signal(phase[x])];
    }

    /** Pops and answers writers up to and including `last`. */
    method PopThrough(w: Writer, last: Writer, status: Status) returns (size: nat)
      requires last in queue && forall x :: x in queue ==> x in phase
      modifies this
      ensures 1 <= size <= |old(queue)| && old(queue)[size - 1] == last && last !in old(queue)[..size - 1]
      ensures queue == old(queue)[size..]
      ensures phase == Answered(old(phase), w, old(queue)[..size], status)
    {
      size := 0;
      while true
        invariant size <= |old(queue)| && queue == old(queue)[size..] && last in queue
        invariant last !in old(queue)[..size]
        invariant phase == Answered(old(phase), w, old(queue)[..size], status)
        decreases |queue|
      {
        var ready := queue[0];
        assert old(queue)[..size + 1] == old(queue)[..size] + [ready];
        AnswerOneMore(old(phase), w, old(queue)[..size], ready, status);
        queue := queue[1..];
        size := size + 1;
        if ready != w {
          AnswerWriter(ready, status);
        }
        if ready == last { break; }
      }
    }

    /** The third phase: the group is answered and the new front woken, as in one publishing step. */
    method FinishGroup(w: Writer, last: Writer, status: Status) returns (size: nat)
      requires queue != [] && queue[0] == w && last in queue && NoDuplicates(queue)
      requires forall x :: x in queue ==> x in phase
      modifies this
      ensures 1 <= size <= |old(queue)| && old(queue)[size - 1] == last
      ensures queue == old(queue)[size..]
      ensures phase == AfterPublish(old(queue), old(phase), w, size, status)
    {
      size := PopThrough(w, last, status);
      if queue != [] {
        phase := phase[queue[0] := Signal(phase[queue[0]])];
      }
      phase := phase[w := Returned(status)];
    }
  }
}
