/** What holds of group commit in every run, whatever the interleaving of the writers, the outcome of
    making room and of logging, and the sizes chosen for the groups. */
module WriteQueueTheorems {
  import opened Coding
  import opened Sequences
  import opened Batches
  import opened WriteQueue

  ghost predicate IsRun(run: seq<State>, steps: seq<Step>) {
    && |run| == |steps| + 1
    && Init(run[0])
    && forall i :: 0 <= i < |steps| ==> Next(run[i], steps[i], run[i + 1])
  }

  lemma {:induction false} RunInv(run: seq<State>, steps: seq<Step>, i: nat)
    requires IsRun(run, steps) && i < |run|
    ensures Inv(run[i])
  {
    if i == 0 {
      InitInv(run[0]);
    } else {
      RunInv(run, steps, i - 1);
      assert Next(run[i - 1], steps[i - 1], run[i - 1 + 1]);
      InvKept(run[i - 1], steps[i - 1], run[i]);
    }
  }

  /** At most one writer is past the wait loop without being done, and it is the front of the queue: so
      the log and the memtable are written by one thread at a time although the lock is released. */
  lemma OneLeader(run: seq<State>, steps: seq<Step>, i: nat, v: Writer, w: Writer)
    requires IsRun(run, steps) && i < |run|
    requires v in run[i].phase && Leading(run[i].phase[v])
    requires w in run[i].phase && Leading(run[i].phase[w])
    ensures v == w && AtFront(run[i], w)
  {
    RunInv(run, steps, i);
    QueuedIsIn(run[i], v);
    QueuedIsIn(run[i], w);
  }

  // ---------------------------------------------------------------------------------------
  // First in, first out, exactly once

  /** The published groups, one after the other and then the queue, are the writers in order of arrival. */
  lemma GroupsAreFifo(run: seq<State>, steps: seq<Step>, i: nat)
    requires IsRun(run, steps) && i < |run|
    ensures Members(run[i].groups) + run[i].queue == run[i].arrivals
    ensures NoDuplicates(run[i].arrivals)
  {
    RunInv(run, steps, i);
  }

  /** No writer is served twice, neither by two groups nor by one, and none is served and still queued. */
  lemma ServedOnce(run: seq<State>, steps: seq<Step>, i: nat, w: Writer, g: nat, h: nat, a: nat, b: nat)
    requires IsRun(run, steps) && i < |run|
    requires g < |run[i].groups| && a < |run[i].groups[g].members| && run[i].groups[g].members[a] == w
    requires h < |run[i].groups| && b < |run[i].groups[h].members| && run[i].groups[h].members[b] == w
    ensures g == h && a == b
    ensures w !in run[i].queue
  {
    GroupsAreFifo(run, steps, i);
    GroupIsUnique(run[i].groups, run[i].queue, g, a, h, b);
    ServedIsNotQueued(run[i].groups, run[i].queue, g, a);
  }

  lemma GroupIsUnique(groups: seq<Group>, queue: seq<Writer>, g: nat, a: nat, h: nat, b: nat)
    requires NoDuplicates(Members(groups) + queue)
    requires g < |groups| && a < |groups[g].members| && h < |groups| && b < |groups[h].members|
    requires groups[g].members[a] == groups[h].members[b]
    ensures g == h && a == b
  {
    MemberAt(groups, g, a);
    MemberAt(groups, h, b);
    var all := Members(groups) + queue;
    var p, q := |Members(groups[..g])| + a, |Members(groups[..h])| + b;
    assert all[p] == all[q];
    Positions(groups, g, a, h, b);
    Positions(groups, h, b, g, a);
  }

  lemma ServedIsNotQueued(groups: seq<Group>, queue: seq<Writer>, g: nat, a: nat)
    requires NoDuplicates(Members(groups) + queue) && g < |groups| && a < |groups[g].members|
    ensures groups[g].members[a] !in queue
  {
    var w := groups[g].members[a];
    MembersOf(groups, g, w);
    forall k | 0 <= k < |queue| ensures queue[k] != w {
      Apart(Members(groups), queue, w, queue[k]);
    }
  }

  /** Where a member of a group stands among all members. */
  lemma {:induction false} MemberAt(groups: seq<Group>, g: nat, a: nat)
    requires g < |groups| && a < |groups[g].members|
    ensures var p := |Members(groups[..g])| + a; p < |Members(groups)| && Members(groups)[p] == groups[g].members[a]
  {
    var last := |groups| - 1;
    if g < last {
      MemberAt(groups[..last], g, a);
      assert groups[..last][..g] == groups[..g];
    }
  }

  /** Members of an earlier group stand before those of a later one. */
  lemma {:induction false} Positions(groups: seq<Group>, g: nat, a: nat, h: nat, b: nat)
    requires g < |groups| && a < |groups[g].members| && h < |groups| && b < |groups[h].members|
    ensures g < h ==> |Members(groups[..g])| + a < |Members(groups[..h])| + b
    decreases h
  {
    if g < h {
      MemberAt(groups[..h], g, a);
      assert groups[..h][..g] == groups[..g];
    }
  }

  // ---------------------------------------------------------------------------------------
  // Sequence numbers

  /** Groups take adjacent ranges of sequence numbers, from 1 to the last sequence: no number is used
      twice and none is skipped, whether or not logging succeeded. */
  lemma RangesAreAdjacent(run: seq<State>, steps: seq<Step>, i: nat, g: nat)
    requires IsRun(run, steps) && i < |run| && g < |run[i].groups|
    ensures
      var groups := run[i].groups;
      && (g == 0 ==> groups[g].base == 1)
      && (g + 1 < |groups| ==> groups[g + 1].base == groups[g].base + |groups[g].ops|)
      && (g + 1 == |groups| ==> run[i].lastSequence + 1 == groups[g].base + |groups[g].ops|)
  {
    RunInv(run, steps, i);
    var groups := run[i].groups;
    assert GroupOk(run[i], g);
    assert groups[..g + 1][..g] == groups[..g];
    if g + 1 < |groups| {
      assert GroupOk(run[i], g + 1);
    } else {
      assert groups[..g + 1] == groups;
    }
  }

  ghost predicate Increasing(mem: seq<(nat, Operation)>) {
    forall i, j :: 0 <= i < j < |mem| ==> mem[i].0 < mem[j].0
  }

  /** The memtable receives strictly increasing sequence numbers, also while a group is half inserted. */
  lemma NumbersIncrease(run: seq<State>, steps: seq<Step>, i: nat)
    requires IsRun(run, steps) && i < |run|
    ensures Increasing(run[i].mem)
  {
    RunInv(run, steps, i);
    var s := run[i];
    StoredIncreases(s, |s.groups|);
    assert s.groups[..|s.groups|] == s.groups;
    forall k | 0 <= k < |Stored(s.groups)| ensures Stored(s.groups)[k].0 <= s.lastSequence {
      StoredIsBounded(s, |s.groups|, k);
    }
    var p := FrontPhase(s);
    if s.queue != [] && HasJob(p) {
      assert JobOk(s, p);
    }
  }

  lemma {:induction false} StoredIsBounded(s: State, n: nat, k: nat)
    requires GroupInv(s) && n <= |s.groups| && k < |Stored(s.groups[..n])|
    ensures Stored(s.groups[..n])[k].0 <= |Operations(s.groups[..n])|
  {
    if n > 0 {
      assert GroupOk(s, n - 1);
      assert s.groups[..n] == s.groups[..n - 1] + [s.groups[n - 1]];
      Snoc(s.groups[..n - 1], s.groups[n - 1]);
      if k < |Stored(s.groups[..n - 1])| {
        StoredIsBounded(s, n - 1, k);
      }
    }
  }

  lemma {:induction false} StoredIncreases(s: State, n: nat)
    requires GroupInv(s) && n <= |s.groups|
    ensures Increasing(Stored(s.groups[..n]))
  {
    if n > 0 {
      StoredIncreases(s, n - 1);
      assert GroupOk(s, n - 1);
      var g := s.groups[n - 1];
      assert s.groups[..n] == s.groups[..n - 1] + [g];
      Snoc(s.groups[..n - 1], g);
      var front := Stored(s.groups[..n - 1]);
      forall k | 0 <= k < |front| ensures front[k].0 < g.base {
        StoredIsBounded(s, n - 1, k);
      }
      IncreasingPlus(front, g.ops, g.base);
    }
  }

  lemma IncreasingPlus(front: seq<(nat, Operation)>, ops: seq<Operation>, base: nat)
    requires Increasing(front) && forall k :: 0 <= k < |front| ==> front[k].0 < base
    ensures Increasing(front + Numbered(ops, base))
  {
  }

  // ---------------------------------------------------------------------------------------
  // What a writer is told, and what it may rely on

  /** The answer a writer has been given. */
  function Answer(s: State, w: Writer): Option<Status> {
    if w !in s.phase then None
    else match s.phase[w]
      case Done(status, _) => Some(status)
      case Returned(status) => Some(status)
      case _ => None
  }

  /** A writer has an answer exactly when some group served it, and the answer is the group's status. */
  lemma AnswerIsTheGroups(run: seq<State>, steps: seq<Step>, i: nat, w: Writer)
    requires IsRun(run, steps) && i < |run|
    ensures w in Members(run[i].groups) <==> Answer(run[i], w).Some?
    ensures forall g :: 0 <= g < |run[i].groups| && w in run[i].groups[g].members ==>
      Answer(run[i], w) == Some(run[i].groups[g].status)
  {
    RunInv(run, steps, i);
    var s := run[i];
    forall g | 0 <= g < |s.groups| && w in s.groups[g].members ensures Answer(s, w) == Some(s.groups[g].status) {
      assert GroupOk(s, g);
    }
    if w in Members(s.groups) {
      var g := MemberOf(s.groups, w);
      assert GroupOk(s, g);
    } else if w in s.phase {
      assert w in s.arrivals;
      assert w in s.queue;
    }
  }

  lemma StepKeepsAnswers(s: State, step: Step, s': State, w: Writer)
    requires QueueInv(s) && Next(s, step, s') && Answer(s, w).Some?
    ensures Answer(s', w) == Answer(s, w)
  {
    assert w !in s.queue;
    match step
    case Publish(_) => assert w in s'.phase;
    case _ =>
  }

  lemma NextKeepsAnswer(run: seq<State>, steps: seq<Step>, i: nat, w: Writer)
    requires IsRun(run, steps) && i < |steps| && Answer(run[i], w).Some?
    ensures Answer(run[i + 1], w) == Answer(run[i], w)
  {
    RunInv(run, steps, i);
    assert Next(run[i], steps[i], run[i + 1]);
    StepKeepsAnswers(run[i], steps[i], run[i + 1], w);
  }

  /** An answer is given once: it never changes and is never withdrawn. */
  lemma {:induction false} AnswersAreFinal(run: seq<State>, steps: seq<Step>, i: nat, j: nat, w: Writer)
    requires IsRun(run, steps) && i <= j < |run| && Answer(run[i], w).Some?
    ensures Answer(run[j], w) == Answer(run[i], w)
    decreases j
  {
    if i < j {
      AnswersAreFinal(run, steps, i, j - 1, w);
      NextKeepsAnswer(run, steps, j - 1, w);
    }
  }

  ghost predicate Extends(s: State, s': State) {
    && s.mem <= s'.mem && s.groups <= s'.groups && s.arrivals <= s'.arrivals
    && forall w :: w in s.batch ==> w in s'.batch && s'.batch[w] == s.batch[w]
  }

  lemma StepExtends(s: State, step: Step, s': State)
    requires Next(s, step, s') && forall w :: w in s.batch ==> w in s.phase
    ensures Extends(s, s')
  {
    match step
    case Arrive(_, _) =>
    case Publish(_) =>
    case _ =>
  }

  lemma ExtendsAgain(s: State, s': State, s'': State)
    requires Extends(s, s') && Extends(s', s'')
    ensures Extends(s, s'')
  {
  }

  lemma NextExtends(run: seq<State>, steps: seq<Step>, i: nat)
    requires IsRun(run, steps) && i < |steps|
    ensures Extends(run[i], run[i + 1])
  {
    RunInv(run, steps, i);
    assert Next(run[i], steps[i], run[i + 1]);
    StepExtends(run[i], steps[i], run[i + 1]);
  }

  /** Nothing leaves the memtable, published groups stay as they are, and no batch changes. */
  lemma {:induction false} HistoryGrows(run: seq<State>, steps: seq<Step>, i: nat, j: nat)
    requires IsRun(run, steps) && i <= j < |run|
    ensures Extends(run[i], run[j])
    decreases j
  {
    if i < j {
      HistoryGrows(run, steps, i, j - 1);
      NextExtends(run, steps, j - 1);
      ExtendsAgain(run[i], run[j - 1], run[j]);
    }
  }

  /** `part` occurs in `mem` as one contiguous piece. */
  ghost predicate Contains(mem: seq<(nat, Operation)>, part: seq<(nat, Operation)>) {
    exists k: nat :: OccursAt(mem, part, k)
  }

  predicate OccursAt(mem: seq<(nat, Operation)>, part: seq<(nat, Operation)>, k: nat) {
    k + |part| <= |mem| && mem[k..k + |part|] == part
  }

  lemma ContainsLonger(a: seq<(nat, Operation)>, b: seq<(nat, Operation)>, part: seq<(nat, Operation)>)
    requires Contains(a, part) && a <= b
    ensures Contains(b, part)
  {
    var k: nat :| OccursAt(a, part, k);
    assert OccursAt(b, part, k);
  }

  lemma {:induction false} MergedContains(ws: seq<Writer>, batch: map<Writer, Batch>, w: Writer) returns (k: nat)
    requires w in ws && w in batch && batch[w].Some?
    ensures k + |batch[w].value| <= |Merged(ws, batch)|
    ensures Merged(ws, batch)[k..k + |batch[w].value|] == batch[w].value
  {
    var tail := Merged(ws[1..], batch);
    if ws[0] == w {
      k := 0;
      SliceOf([], batch[w].value + tail, 0, |batch[w].value|);
    } else {
      var head := if ws[0] in batch && batch[ws[0]].Some? then batch[ws[0]].value else [];
      k := MergedContains(ws[1..], batch, w);
      SliceOf(head, tail, k, |batch[w].value|);
      k := |head| + k;
    }
  }

  lemma SliceOf(head: seq<Operation>, tail: seq<Operation>, k: nat, n: nat)
    requires k + n <= |tail|
    ensures (head + tail)[|head| + k..|head| + k + n] == tail[k..k + n]
  {
  }

  lemma {:induction false} StoredContains(groups: seq<Group>, g: nat)
    requires g < |groups| && groups[g].status == Ok
    ensures Contains(Stored(groups), Numbered(groups[g].ops, groups[g].base))
  {
    var last := |groups| - 1;
    var init := groups[..last];
    if g < last {
      StoredContains(init, g);
      ContainsLonger(Stored(init), Stored(groups), Numbered(groups[g].ops, groups[g].base));
    } else {
      var part := Numbered(groups[g].ops, groups[g].base);
      var k := |Stored(init)|;
      assert OccursAt(Stored(groups), part, k);
    }
  }

  lemma NumberedSlice(ops: seq<Operation>, base: nat, k: nat, n: nat)
    requires k + n <= |ops|
    ensures Numbered(ops, base)[k..k + n] == Numbered(ops[k..k + n], base + k)
  {
  }

  lemma ContainsSlice(mem: seq<(nat, Operation)>, part: seq<(nat, Operation)>, k: nat, n: nat)
    requires Contains(mem, part) && k + n <= |part|
    ensures Contains(mem, part[k..k + n])
  {
    var m: nat :| OccursAt(mem, part, m);
    var found, wanted := mem[m + k..m + k + n], part[k..k + n];
    assert |wanted| == n;
    forall x | 0 <= x < n ensures found[x] == wanted[x] {
      assert mem[m..m + |part|][k + x] == mem[m + k + x];
    }
    assert found == wanted;
    assert OccursAt(mem, part[k..k + n], m + k);
  }

  /** A batch whose writer was told `Ok` is in the memtable, whole, in order and with consecutive
      sequence numbers, from that moment on. */
  lemma AcknowledgedIsStored(run: seq<State>, steps: seq<Step>, i: nat, j: nat, w: Writer)
    requires IsRun(run, steps) && i <= j < |run|
    requires Answer(run[i], w) == Some(Ok) && w in run[i].batch && run[i].batch[w].Some?
    ensures exists sequence: nat :: Contains(run[j].mem, Numbered(run[i].batch[w].value, sequence))
  {
    RunInv(run, steps, i);
    AnswerIsTheGroups(run, steps, i, w);
    var g := MemberOf(run[i].groups, w);
    var sequence := GroupStores(run[i], g, w);
    HistoryGrows(run, steps, i, j);
    ContainsLonger(run[i].mem, run[j].mem, Numbered(run[i].batch[w].value, sequence));
  }

  lemma GroupStores(s: State, g: nat, w: Writer) returns (sequence: nat)
    requires GroupInv(s) && MemInv(s) && g < |s.groups| && s.groups[g].status == Ok && w in s.groups[g].members
    requires w in s.batch && s.batch[w].Some?
    ensures Contains(s.mem, Numbered(s.batch[w].value, sequence))
  {
    assert GroupOk(s, g);
    var group, ops := s.groups[g], s.batch[w].value;
    var k := MergedContains(group.members, s.batch, w);
    StoredContains(s.groups, g);
    NumberedSlice(group.ops, group.base, k, |ops|);
    ContainsSlice(Stored(s.groups), Numbered(group.ops, group.base), k, |ops|);
    sequence := group.base + k;
    ContainsLonger(Stored(s.groups), s.mem, Numbered(ops, sequence));
  }

  /** The operations of the acknowledged groups, from the writers' own batches. */
  function Committed(groups: seq<Group>, batch: map<Writer, Batch>): seq<Operation> {
    if groups == [] then []
    else
      var g := groups[|groups| - 1];
      Committed(groups[..|groups| - 1], batch) + if g.status == Ok then Merged(g.members, batch) else []
  }

  /** Between groups the memtable holds the acknowledged batches in the order of arrival and nothing
      else: a writer that was told of a failure left nothing. */
  lemma OnlyAcknowledgedIsStored(run: seq<State>, steps: seq<Step>, i: nat)
    requires IsRun(run, steps) && i < |run|
    requires forall w :: w in run[i].phase ==> !Leading(run[i].phase[w])
    ensures Unnumbered(run[i].mem) == Committed(run[i].groups, run[i].batch)
  {
    RunInv(run, steps, i);
    var s := run[i];
    assert !Leading(FrontPhase(s)) || s.queue == [];
    StoredIsCommitted(s, |s.groups|);
    assert s.groups[..|s.groups|] == s.groups;
  }

  lemma {:induction false} StoredIsCommitted(s: State, n: nat)
    requires GroupInv(s) && n <= |s.groups|
    ensures Unnumbered(Stored(s.groups[..n])) == Committed(s.groups[..n], s.batch)
  {
    if n > 0 {
      StoredIsCommitted(s, n - 1);
      var g := s.groups[n - 1];
      assert GroupOk(s, n - 1);
      assert s.groups[..n][..n - 1] == s.groups[..n - 1];
      UnnumberedPlus(Stored(s.groups[..n - 1]), if g.status == Ok then Numbered(g.ops, g.base) else []);
    }
  }

  /** The operations without their numbers. */
  function Unnumbered(mem: seq<(nat, Operation)>): seq<Operation> {
    seq(|mem|, k requires 0 <= k < |mem| => mem[k].1)
  }

  lemma UnnumberedPlus(a: seq<(nat, Operation)>, b: seq<(nat, Operation)>)
    ensures Unnumbered(a + b) == Unnumbered(a) + Unnumbered(b)
  {
  }

  // ---------------------------------------------------------------------------------------
  // Where the status comes from

  /** The steps that decide a group, with its members and their status: writing the log does; making room does
      when it fails, or when the leader has nothing to write. */
  function Decided(s: State, step: Step): Option<(seq<Writer>, Status)>
    requires step.Arrive? || Enabled(s, step)
  {
    match step
    case AddRecord(w, status) =>
      if s.phase[w].job.size <= |s.queue| then Some((s.queue[..s.phase[w].job.size], status)) else None
    case Prepare(w, room, _) => if room != Ok || s.batch[w].None? then Some(([w], room)) else None
    case _ => None
  }

  /** The leader is on the way to telling `members` the status. */
  ghost predicate HeadsFor(s: State, w: Writer, members: seq<Writer>, status: Status) {
    && AtFront(s, w) && members <= s.queue
    && match s.phase[w]
       case Inserting(job, _) => status == Ok && job.size == |members|
       case Finishing(job, told) => told == status && job.size == |members|
       case _ => false
  }

  ghost predicate Told(s: State, members: seq<Writer>, status: Status) {
    forall x :: x in members ==> Answer(s, x) == Some(status)
  }

  lemma DecidingStep(s: State, step: Step, s': State)
    requires Inv(s) && Next(s, step, s') && Decided(s, step).Some?
    ensures HeadsFor(s', step.w, Decided(s, step).value.0, Decided(s, step).value.1)
  {
    QueuedIsIn(s, step.w);
    assert HasJob(s.phase[step.w]) ==> JobOk(s, s.phase[step.w]);
  }

  lemma StepKeepsCourse(s: State, step: Step, s': State, w: Writer, members: seq<Writer>, status: Status)
    requires Inv(s) && Next(s, step, s') && HeadsFor(s, w, members, status)
    ensures HeadsFor(s', w, members, status) || Told(s', members, status)
  {
    if step.Publish? {
      assert s.queue[..|members|] == members;
      forall x | x in members ensures Answer(s', x) == Some(status) {
        assert x in s.queue && x in s.arrivals;
      }
    } else {
      CourseKept(s, step, s', w, members, status);
    }
  }

  lemma CourseKept(s: State, step: Step, s': State, w: Writer, members: seq<Writer>, status: Status)
    requires Inv(s) && Next(s, step, s') && HeadsFor(s, w, members, status) && !step.Publish?
    ensures HeadsFor(s', w, members, status)
  {
    match step
    case Arrive(_, _) =>
    case Return(_) =>
    case _ =>
  }

  /** What making room or writing the log gave is what the whole group is told, and nothing else comes between:
      from then on the leader is on the way to telling it, or has told it. */
  lemma WorkDecides(run: seq<State>, steps: seq<Step>, i: nat, j: nat)
    requires IsRun(run, steps) && i < j < |run|
    requires Next(run[i], steps[i], run[i + 1]) && Decided(run[i], steps[i]).Some?
    ensures
      var (members, status) := Decided(run[i], steps[i]).value;
      OnCourse(run[j], steps[i].w, members, status)
  {
    var (members, status) := Decided(run[i], steps[i]).value;
    RunInv(run, steps, i);
    DecidingStep(run[i], steps[i], run[i + 1]);
    CourseStays(run, steps, i + 1, j, steps[i].w, members, status);
  }

  lemma CourseStays(run: seq<State>, steps: seq<Step>, i: nat, j: nat, w: Writer, members: seq<Writer>, status: Status)
    requires IsRun(run, steps) && i <= j < |run| && OnCourse(run[i], w, members, status)
    ensures OnCourse(run[j], w, members, status)
  {
    var holds := seq(|run|, k requires 0 <= k < |run| => OnCourse(run[k], w, members, status));
    forall k | 0 <= k < |steps| && holds[k] ensures holds[k + 1] {
      RunInv(run, steps, k);
      assert Next(run[k], steps[k], run[k + 1]);
      CourseOrTold(run[k], steps[k], run[k + 1], w, members, status);
    }
    Stays(holds, i, j);
  }

  ghost predicate OnCourse(s: State, w: Writer, members: seq<Writer>, status: Status) {
    HeadsFor(s, w, members, status) || Told(s, members, status)
  }

  lemma {:induction false} Stays(holds: seq<bool>, i: nat, j: nat)
    requires i <= j < |holds| && holds[i] && forall k :: 0 <= k < |holds| - 1 && holds[k] ==> holds[k + 1]
    ensures holds[j]
  {
    if i < j {
      Stays(holds, i, j - 1);
      assert holds[j - 1 + 1];
    }
  }

  lemma CourseOrTold(s: State, step: Step, s': State, w: Writer, members: seq<Writer>, status: Status)
    requires Inv(s) && Next(s, step, s') && OnCourse(s, w, members, status)
    ensures OnCourse(s', w, members, status)
  {
    if HeadsFor(s, w, members, status) {
      StepKeepsCourse(s, step, s', w, members, status);
    } else {
      forall x | x in members ensures Answer(s', x) == Some(status) {
        StepKeepsAnswers(s, step, s', x);
      }
    }
  }

  /** Some step before moment `i` decided this. */
  ghost predicate Caused(run: seq<State>, steps: seq<Step>, i: nat, members: seq<Writer>, status: Status)
    requires i < |run| == |steps| + 1
  {
    exists k :: 0 <= k < i && Decides(run[k], steps[k], run[k + 1], members, status)
  }

  ghost predicate Decides(s: State, step: Step, s': State, members: seq<Writer>, status: Status) {
    Next(s, step, s') && Decided(s, step) == Some((members, status))
  }

  lemma CausedLater(run: seq<State>, steps: seq<Step>, i: nat, j: nat, members: seq<Writer>, status: Status)
    requires i <= j < |run| == |steps| + 1 && Caused(run, steps, i, members, status)
    ensures Caused(run, steps, j, members, status)
  {
  }

  /** Any step that brings a leader on its way, or finds it there, is the deciding one or keeps it there. */
  lemma CourseHasCause(s: State, step: Step, s': State, w: Writer, members: seq<Writer>, status: Status)
    requires QueueInv(s) && JobInv(s) && Next(s, step, s') && HeadsFor(s', w, members, status) && !step.Publish?
    ensures HeadsFor(s, w, members, status) || Decided(s, step) == Some((members, status))
  {
    if step.Arrive? {
      assert w != step.w && s'.phase[w] == s.phase[w];
      assert JobOk(s, s.phase[w]);
    } else {
      assert members == s.queue[..|members|];
      assert step.Prepare? ==> s.queue[..1] == [step.w];
    }
  }

  /** Publishing leaves a front that is only waking up. */
  lemma NoCourseAfterPublish(s: State, step: Step, s': State, w: Writer, members: seq<Writer>, status: Status)
    requires Inv(s) && Next(s, step, s') && HeadsFor(s', w, members, status)
    ensures !step.Publish?
  {
    if step.Publish? {
      assert JobOk(s, s.phase[step.w]);
      PublishWaiters(s, step.w, s.phase[step.w].job, s.phase[step.w].status);
    }
  }

  lemma StepHasCause(s: State, step: Step, s': State, w: Writer, members: seq<Writer>, status: Status)
    requires Inv(s) && Next(s, step, s') && HeadsFor(s', w, members, status)
    ensures HeadsFor(s, w, members, status) || Decides(s, step, s', members, status)
  {
    NoCourseAfterPublish(s, step, s', w, members, status);
    CourseHasCause(s, step, s', w, members, status);
  }

  lemma LeaderHasCause(run: seq<State>, steps: seq<Step>, i: nat, w: Writer, members: seq<Writer>, status: Status)
    requires IsRun(run, steps) && i < |run| && HeadsFor(run[i], w, members, status)
    ensures Caused(run, steps, i, members, status)
  {
    var heads := seq(|run|, k requires 0 <= k < |run| => HeadsFor(run[k], w, members, status));
    var decides := seq(|steps|, k requires 0 <= k < |steps| => Decides(run[k], steps[k], run[k + 1], members, status));
    forall k | 0 <= k < |steps| && heads[k + 1] ensures heads[k] || decides[k] {
      RunInv(run, steps, k);
      assert Next(run[k], steps[k], run[k + 1]);
      StepHasCause(run[k], steps[k], run[k + 1], w, members, status);
    }
    var k := StartOf(heads, decides, i);
  }

  /** What holds now and not at first began to hold at some step. */
  lemma {:induction false} StartOf(holds: seq<bool>, starts: seq<bool>, i: nat) returns (k: nat)
    requires i < |holds| == |starts| + 1 && holds[i] && !holds[0]
    requires forall k :: 0 <= k < |starts| && holds[k + 1] ==> holds[k] || starts[k]
    ensures k < i && starts[k]
  {
    k := i - 1;
    assert holds[k + 1];
    if !starts[k] {
      k := StartOf(holds, starts, i - 1);
    }
  }

  /** No status is made up: the members of every published group were told what making room or writing the log
      for that group gave. */
  lemma {:induction false} StatusHasCause(run: seq<State>, steps: seq<Step>, i: nat, g: nat)
    requires IsRun(run, steps) && i < |run| && g < |run[i].groups|
    ensures Caused(run, steps, i, run[i].groups[g].members, run[i].groups[g].status)
  {
    if i > 0 {
      var s, step := run[i - 1], steps[i - 1];
      assert Next(s, step, run[i - 1 + 1]);
      if g < |s.groups| {
        NextExtends(run, steps, i - 1);
        StatusHasCause(run, steps, i - 1, g);
        CausedLater(run, steps, i - 1, i, run[i].groups[g].members, run[i].groups[g].status);
      } else {
        var p := s.phase[step.w];
        assert HeadsFor(s, step.w, s.queue[..p.job.size], p.status);
        LeaderHasCause(run, steps, i - 1, step.w, s.queue[..p.job.size], p.status);
        CausedLater(run, steps, i - 1, i, s.queue[..p.job.size], p.status);
      }
    }
  }

  // ---------------------------------------------------------------------------------------
  // Progress

  /** No wake-up is lost: the front of a non-empty queue is never asleep, and can take a step that
      brings it closer to publishing. */
  lemma FrontCanMove(run: seq<State>, steps: seq<Step>, i: nat)
    requires IsRun(run, steps) && i < |run| && run[i].queue != []
    ensures exists step :: Enabled(run[i], step) && step.w == run[i].queue[0] && !step.Wake? && !step.Sleep?
  {
    RunInv(run, steps, i);
    FrontStepEnabled(run[i]);
  }

  /** The wait loop: a writer behind the front does nothing but sleep and wake, goes to sleep when it finds
      nothing to do, and a sleeping one does nothing until it is woken. */
  lemma WaitersWait(run: seq<State>, steps: seq<Step>, i: nat)
    requires IsRun(run, steps) && i < |steps| && steps[i].w in run[i].queue && !AtFront(run[i], steps[i].w)
    ensures steps[i].w in run[i].phase && steps[i].w in run[i + 1].phase && (steps[i].Sleep? || steps[i].Wake?)
    ensures run[i].phase[steps[i].w] == Waiting(false) ==> steps[i].Wake?
    ensures run[i + 1].phase[steps[i].w] == Waiting(steps[i].Wake?)
  {
    RunInv(run, steps, i);
    assert Next(run[i], steps[i], run[i + 1]);
    assert steps[i].w in run[i].arrivals;
  }

  /** And it can go to sleep whenever it is awake. */
  lemma CanSleep(s: State, w: Writer)
    requires QueueInv(s) && w in s.queue && s.phase[w] == Waiting(true) && w != s.queue[0]
    ensures Enabled(s, Sleep(w)) && After(s, Sleep(w)).phase[w] == Waiting(false)
  {
  }

  /** What the front does next when everything goes well. */
  function FrontStep(s: State): Step
    requires s.queue != [] && s.queue[0] in s.phase
  {
    var w := s.queue[0];
    match s.phase[w]
    case Waiting(_) => Lead(w)
    case Preparing => Prepare(w, Ok, 1)
    case Logging(_) => AddRecord(w, Ok)
    case Inserting(job, next) => if next < |job.ops| then InsertOne(w) else InsertedAll(w)
    case Finishing(_, _) => Publish(w)
    case _ => Return(w)
  }

  lemma FrontStepEnabled(s: State)
    requires Inv(s) && s.queue != []
    ensures s.queue[0] in s.phase && Enabled(s, FrontStep(s)) && FrontStep(s).w == s.queue[0]
    ensures !FrontStep(s).Wake? && !FrontStep(s).Sleep? && !FrontStep(s).Arrive?
    ensures s.phase[s.queue[0]].Waiting? || Leading(s.phase[s.queue[0]])
  {
    var w := s.queue[0];
    assert w in s.arrivals;
    assert HasJob(s.phase[w]) ==> JobOk(s, s.phase[w]);
  }

  /** How far a writer is from its answer once it is at the front: a stage, and the insertions left in it. */
  function Stage(p: Phase): nat {
    match p
    case Waiting(_) => 5
    case Preparing => 4
    case Logging(_) => 3
    case Inserting(_, _) => 2
    case Finishing(_, _) => 1
    case _ => 0
  }

  function Left(p: Phase): int {
    if p.Inserting? then |p.job.ops| - p.next else 0
  }

  /** The step of a leader decreases its stage, or the insertions left. */
  predicate Closer(p: Phase, p': Phase) {
    Stage(p') < Stage(p) || (Stage(p') == Stage(p) && 0 <= Left(p') < Left(p))
  }

  lemma StepAdvances(s: State, step: Step, s': State, w: Writer)
    requires Next(s, step, s') && AtFront(s, w) && (s.phase[w].Waiting? || Leading(s.phase[w]))
    ensures w in s'.phase
    ensures if step.w == w && !step.Wake? then Closer(s.phase[w], s'.phase[w])
            else s'.phase[w] == s.phase[w] || s'.phase[w] == Waiting(true)
  {
    match step
    case Arrive(_, _) =>
    case Publish(_) =>
    case Prepare(_, _, _) =>
    case InsertOne(_) =>
    case _ =>
  }

  /** Every other step of the front brings it closer to its answer, and no step of another writer takes
      it back. So a front that is scheduled publishes after finitely many steps. */
  lemma FrontAdvances(run: seq<State>, steps: seq<Step>, i: nat)
    requires IsRun(run, steps) && i < |steps| && run[i].queue != []
    ensures
      var w := run[i].queue[0];
      && w in run[i].phase && w in run[i + 1].phase
      && if steps[i].w == w && !steps[i].Wake? then Closer(run[i].phase[w], run[i + 1].phase[w])
         else run[i + 1].phase[w] == run[i].phase[w]
  {
    RunInv(run, steps, i);
    var w := run[i].queue[0];
    assert w in run[i].arrivals;
    assert Next(run[i], steps[i], run[i + 1]);
    StepAdvances(run[i], steps[i], run[i + 1], w);
  }

  predicate StandsAt(s: State, k: nat, w: Writer) {
    k < |s.queue| && s.queue[k] == w
  }

  ghost predicate StandsBefore(s: State, k: nat, w: Writer) {
    exists m: nat :: m < k && StandsAt(s, m, w)
  }

  lemma PublishMovesForward(s: State, v: Writer, s': State, k: nat, w: Writer)
    requires QueueInv(s) && JobInv(s) && Next(s, Publish(v), s') && StandsAt(s, k, w)
    ensures Answer(s', w).Some? || StandsBefore(s', k, w)
  {
    var size := s.phase[v].job.size;
    assert JobOk(s, s.phase[v]);
    if k < size {
      PublishAnswers(s, v, s', k, w);
    } else {
      assert StandsAt(s', k - size, w);
    }
  }

  lemma PublishAnswers(s: State, v: Writer, s': State, k: nat, w: Writer)
    requires QueueInv(s) && Next(s, Publish(v), s') && StandsAt(s, k, w) && k < s.phase[v].job.size
    ensures Answer(s', w).Some?
  {
    assert s.queue[..s.phase[v].job.size][k] == w;
    assert w in s.arrivals;
  }

  /** A queued writer only moves forward, and each publication moves it or answers it. */
  lemma QueueMovesForward(run: seq<State>, steps: seq<Step>, i: nat, k: nat, w: Writer)
    requires IsRun(run, steps) && i < |steps| && StandsAt(run[i], k, w)
    ensures if steps[i].Publish?
            then Answer(run[i + 1], w).Some? || StandsBefore(run[i + 1], k, w)
            else StandsAt(run[i + 1], k, w)
  {
    RunInv(run, steps, i);
    assert Next(run[i], steps[i], run[i + 1]);
    if steps[i].Publish? {
      PublishMovesForward(run[i], steps[i].w, run[i + 1], k, w);
    }
  }

  /** A new writer can always join, and a leader with a batch can serve any number of the writers in the queue
      with one merged batch, whatever the log says to it. */
  lemma AnyGroupCanForm(s: State, w: Writer, size: nat, status: Status)
    requires Inv(s) && AtFront(s, w) && s.phase[w] == Preparing && s.batch[w].Some? && 1 <= size <= |s.queue|
    ensures Enabled(s, Prepare(w, Ok, size))
    ensures
      var s' := After(s, Prepare(w, Ok, size));
      && s'.queue == s.queue && s'.phase[w].Logging? && s'.phase[w].job.ops == Merged(s.queue[..size], s.batch)
      && Enabled(s', AddRecord(w, status)) && Decided(s', AddRecord(w, status)) == Some((s.queue[..size], status))
  {
  }

  lemma AnyoneCanArrive(s: State, w: Writer, b: Batch)
    requires w !in s.phase
    ensures exists s' :: Next(s, Arrive(w, b), s') && s'.queue == s.queue + [w] && w in s'.batch && s'.batch[w] == b
  {
    assert Next(s, Arrive(w, b), Arrived(s, w, b));
  }

  // ---------------------------------------------------------------------------------------
  // Completion

  ghost predicate IsPath(run: seq<State>, steps: seq<Step>) {
    |run| == |steps| + 1 && forall i :: 0 <= i < |steps| ==> Next(run[i], steps[i], run[i + 1])
  }

  lemma Prepend(s: State, step: Step, run: seq<State>, steps: seq<Step>)
    requires IsPath(run, steps) && Next(s, step, run[0])
    ensures IsPath([s] + run, [step] + steps)
  {
    var run', steps' := [s] + run, [step] + steps;
    forall i | 0 <= i < |steps'| ensures Next(run'[i], steps'[i], run'[i + 1]) {
      assert i > 0 ==> Next(run[i - 1], steps[i - 1], run[i - 1 + 1]);
    }
  }

  /** The state after a step of a writer that has arrived. */
  function After(s: State, step: Step): State
    requires Enabled(s, step)
  {
    if step.Publish? then Published(s, step.w, s.phase[step.w].job, s.phase[step.w].status)
    else s.(phase := s.phase[step.w := NewPhase(s, step)], mem := NewMem(s, step))
  }

  /** A step of the front shortens the queue, or leaves it and brings the front closer. */
  lemma FrontStepCounts(s: State)
    requires Inv(s) && s.queue != []
    ensures s.queue[0] in s.phase && Enabled(s, FrontStep(s))
    ensures
      var s' := After(s, FrontStep(s));
      && Next(s, FrontStep(s), s') && s'.arrivals == s.arrivals
      && if FrontStep(s).Publish? then |s'.queue| < |s.queue|
         else s'.queue == s.queue && s.queue[0] in s'.phase && Closer(s.phase[s.queue[0]], s'.phase[s.queue[0]])
  {
    FrontStepEnabled(s);
    var w := s.queue[0];
    assert HasJob(s.phase[w]) ==> JobOk(s, s.phase[w]);
    StepAdvances(s, FrontStep(s), After(s, FrontStep(s)), w);
  }

  function FrontStage(s: State): nat {
    if s.queue != [] && s.queue[0] in s.phase then Stage(s.phase[s.queue[0]]) else 0
  }

  function FrontLeft(s: State): nat {
    if s.queue != [] && s.queue[0] in s.phase && Left(s.phase[s.queue[0]]) >= 0 then Left(s.phase[s.queue[0]]) else 0
  }

  /** A shorter queue, or the same with its front closer. */
  predicate Sooner(s': State, s: State) {
    || |s'.queue| < |s.queue|
    || (|s'.queue| == |s.queue| && FrontStage(s') < FrontStage(s))
    || (|s'.queue| == |s.queue| && FrontStage(s') == FrontStage(s) && FrontLeft(s') < FrontLeft(s))
  }

  lemma FrontStepHelps(s: State)
    requires Inv(s) && s.queue != []
    ensures s.queue[0] in s.phase && Enabled(s, FrontStep(s))
    ensures
      var s' := After(s, FrontStep(s));
      Next(s, FrontStep(s), s') && Inv(s') && s'.arrivals == s.arrivals && Sooner(s', s)
  {
    FrontStepCounts(s);
    InvKept(s, FrontStep(s), After(s, FrontStep(s)));
  }

  /** The writer's group has failed already, though it has not been told. */
  predicate Doomed(s: State, w: Writer) {
    var p := FrontPhase(s);
    p.Finishing? && p.status != Ok && p.job.size <= |s.queue| && w in s.queue[..p.job.size]
  }

  /** The writer will be told `Ok` when everything goes well from now on, or has been. */
  predicate Hopeful(s: State, w: Writer) {
    (w in s.queue && !Doomed(s, w)) || Answer(s, w) == Some(Ok)
  }

  lemma FrontStepKeepsHope(s: State, w: Writer)
    requires Inv(s) && s.queue != [] && s.queue[0] in s.phase && Enabled(s, FrontStep(s)) && Hopeful(s, w)
    requires Next(s, FrontStep(s), After(s, FrontStep(s))) && Inv(After(s, FrontStep(s)))
    ensures Hopeful(After(s, FrontStep(s)), w)
  {
    var s' := After(s, FrontStep(s));
    if Answer(s, w) == Some(Ok) {
      StepKeepsAnswers(s, FrontStep(s), s', w);
    } else if FrontStep(s).Publish? {
      PublishKeepsHope(s, w);
    }
  }

  lemma PublishKeepsHope(s: State, w: Writer)
    requires Inv(s) && s.queue != [] && s.queue[0] in s.phase && FrontPhase(s).Finishing?
    requires Enabled(s, FrontStep(s)) && w in s.queue && !Doomed(s, w)
    ensures Hopeful(After(s, FrontStep(s)), w)
  {
    var Finishing(job, status) := FrontPhase(s);
    assert JobOk(s, s.phase[s.queue[0]]);
    PublishWaiters(s, s.queue[0], job, status);
    if w in s.queue[..job.size] {
      ServedIsTold(s, s.queue[0], job, status, w);
    } else {
      assert s.queue == s.queue[..job.size] + s.queue[job.size..];
    }
  }

  lemma ServedIsTold(s: State, v: Writer, job: Job, status: Status, w: Writer)
    requires QueueInv(s) && job.size <= |s.queue| && w in s.queue[..job.size]
    ensures Answer(Published(s, v, job, status), w) == Some(status)
  {
    assert w in s.queue;
    assert w in s.arrivals;
  }

  /** Everyone who could hope for it has been told `Ok`. */
  ghost predicate Fulfils(s: State, t: State) {
    forall w :: Hopeful(s, w) ==> Answer(t, w) == Some(Ok)
  }

  lemma FulfilsBefore(s: State, t: State)
    requires Inv(s) && s.queue != [] && s.queue[0] in s.phase && Enabled(s, FrontStep(s))
    requires Next(s, FrontStep(s), After(s, FrontStep(s))) && Fulfils(After(s, FrontStep(s)), t)
    requires Inv(After(s, FrontStep(s)))
    ensures Fulfils(s, t)
  {
    forall w | Hopeful(s, w) ensures Answer(t, w) == Some(Ok) {
      FrontStepKeepsHope(s, w);
    }
  }

  /** From every reachable state the queue can be emptied without new arrivals, which answers everyone; whoever
      was not in a group that had failed by then is told `Ok`. */
  lemma {:induction false} QueueEmpties(s: State) returns (run: seq<State>, steps: seq<Step>)
    requires Inv(s)
    ensures IsPath(run, steps) && run[0] == s
    ensures Inv(run[|run| - 1]) && run[|run| - 1].queue == [] && run[|run| - 1].arrivals == s.arrivals
    ensures Fulfils(s, run[|run| - 1])
    decreases |s.queue|, FrontStage(s), FrontLeft(s)
  {
    if s.queue == [] {
      return [s], [];
    }
    FrontStepHelps(s);
    var step := FrontStep(s);
    var rest, more := QueueEmpties(After(s, step));
    Prepend(s, step, rest, more);
    run, steps := [s] + rest, [step] + more;
    assert run[|run| - 1] == rest[|rest| - 1];
    FulfilsBefore(s, run[|run| - 1]);
  }

  /** Writers with an answer that have not returned. */
  function Pending(ws: seq<Writer>, phase: map<Writer, Phase>): nat {
    if ws == [] then 0
    else (if ws[0] in phase && phase[ws[0]].Done? then 1 else 0) + Pending(ws[1..], phase)
  }

  lemma {:induction false} PendingDrops(ws: seq<Writer>, phase: map<Writer, Phase>, w: Writer, status: Status)
    requires w in ws && w in phase && phase[w].Done?
    ensures Pending(ws, phase[w := Returned(status)]) < Pending(ws, phase)
  {
    if w in ws[1..] {
      PendingDrops(ws[1..], phase, w, status);
    } else {
      PendingSame(ws[1..], phase, w, status);
    }
  }

  lemma {:induction false} PendingSame(ws: seq<Writer>, phase: map<Writer, Phase>, w: Writer, status: Status)
    requires w !in ws
    ensures Pending(ws, phase[w := Returned(status)]) == Pending(ws, phase)
  {
    if ws != [] { PendingSame(ws[1..], phase, w, status); }
  }

  /** Once everyone has an answer everyone can return: each was signalled when it got its answer. */
  lemma {:induction false} EveryoneReturns(s: State) returns (run: seq<State>, steps: seq<Step>)
    requires Inv(s) && s.queue == []
    ensures IsPath(run, steps) && run[0] == s
    ensures run[|run| - 1].arrivals == s.arrivals
    ensures forall w :: w in s.arrivals ==> w in run[|run| - 1].phase && run[|run| - 1].phase[w].Returned?
    ensures forall w :: Answer(s, w).Some? ==> Answer(run[|run| - 1], w) == Answer(s, w)
    decreases Pending(s.arrivals, s.phase)
  {
    if w :| w in s.arrivals && s.phase[w].Done? {
      DoneIsAwake(s, w);
      var s' := After(s, Return(w));
      InvKept(s, Return(w), s');
      PendingDrops(s.arrivals, s.phase, w, s.phase[w].status);
      forall x | Answer(s, x).Some? ensures Answer(s', x) == Answer(s, x) {
        StepKeepsAnswers(s, Return(w), s', x);
      }
      run, steps := EveryoneReturns(s');
      Prepend(s, Return(w), run, steps);
      run, steps := [s] + run, [Return(w)] + steps;
    } else {
      run, steps := [s], [];
      forall w | w in s.arrivals ensures w in s.phase && s.phase[w].Returned? {
        MemberIsAnswered(s, w);
      }
    }
  }

  lemma DoneIsAwake(s: State, w: Writer)
    requires QueueInv(s) && GroupInv(s) && w in s.phase && s.phase[w].Done?
    ensures Enabled(s, Return(w))
  {
    assert w in s.arrivals && w !in s.queue;
    var g := MemberOf(s.groups, w);
    assert GroupOk(s, g);
  }

  /** No writer is stuck: from every moment of every run there is a continuation after which every writer that
      has arrived has returned, with `Ok` unless its group had failed before. */
  lemma WritersComplete(run: seq<State>, steps: seq<Step>, i: nat) returns (rest: seq<State>, more: seq<Step>)
    requires IsRun(run, steps) && i < |run|
    ensures IsPath(rest, more) && rest[0] == run[i] && rest[|rest| - 1].arrivals == run[i].arrivals
    ensures forall w :: w in run[i].arrivals ==> w in rest[|rest| - 1].phase && rest[|rest| - 1].phase[w].Returned?
    ensures Fulfils(run[i], rest[|rest| - 1])
  {
    RunInv(run, steps, i);
    var a, stepsA := QueueEmpties(run[i]);
    var b, stepsB := EveryoneReturns(a[|a| - 1]);
    rest, more := a + b[1..], stepsA + stepsB;
    Join(a, stepsA, b, stepsB);
  }

  lemma Join(a: seq<State>, stepsA: seq<Step>, b: seq<State>, stepsB: seq<Step>)
    requires IsPath(a, stepsA) && IsPath(b, stepsB) && b[0] == a[|a| - 1]
    ensures IsPath(a + b[1..], stepsA + stepsB) && (a + b[1..])[|stepsA| + |stepsB|] == b[|b| - 1]
  {
    var run, steps := a + b[1..], stepsA + stepsB;
    forall i | 0 <= i < |steps| ensures Next(run[i], steps[i], run[i + 1]) {
      if i < |stepsA| {
        assert Next(a[i], stepsA[i], a[i + 1]);
      } else {
        var k := i - |stepsA|;
        assert Next(b[k], stepsB[k], b[k + 1]);
        assert run[i] == b[k] && run[i + 1] == b[k + 1];
      }
    }
  }
}
