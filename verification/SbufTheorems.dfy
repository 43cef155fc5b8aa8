/** What holds of the bounded buffer in every run: it is a FIFO queue exactly when index updates
    cannot overlap, its semaphores balance, and it never deadlocks. */
module SbufTheorems {
  import opened Coding
  import opened Sbuf

  /** Some thread takes its next step. */
  ghost predicate Moves(a: State, b: State) {
    |a.buf| == a.n && exists t: nat, item :: t < |a.threads| && Step(a, t, item) == Some(b)
  }

  ghost predicate IsRun(run: seq<State>) {
    |run| > 0 && forall i :: 0 <= i < |run| - 1 ==> Moves(run[i], run[i + 1])
  }

  ghost predicate RunTo(run: seq<State>, s: State, r: State) {
    IsRun(run) && run[0] == s && run[|run| - 1] == r
  }

  /** `r` is the state after some run from `s`, under some interleaving. */
  ghost predicate Reaches(s: State, r: State) {
    exists run :: RunTo(run, s, r)
  }

  lemma StartReaches(s: State)
    ensures Reaches(s, s)
  {
    assert RunTo([s], s, s);
  }

  lemma StepReaches(s: State, r: State, t: nat, item: int, r': State)
    requires Reaches(s, r)
    requires |r.buf| == r.n && t < |r.threads| && Step(r, t, item) == Some(r')
    ensures Reaches(s, r')
  {
    var run :| RunTo(run, s, r);
    assert Moves(r, r');
    assert RunTo(run + [r'], s, r');
  }

  lemma {:induction false} RunAccounts(run: seq<State>, i: nat)
    requires IsRun(run) && i < |run| && Accounting(run[0])
    ensures Accounting(run[i])
  {
    if i > 0 {
      RunAccounts(run, i - 1);
      assert Moves(run[i - 1], run[i - 1 + 1]);
      var t: nat, item :| t < |run[i - 1].threads| && Step(run[i - 1], t, item) == Some(run[i]);
      StepAccounts(run[i - 1], t, item);
    }
  }

  lemma {:induction false} RunFifo(run: seq<State>, i: nat)
    requires IsRun(run) && i < |run| && Fifo(run[0])
    ensures Fifo(run[i])
  {
    if i > 0 {
      RunFifo(run, i - 1);
      assert Moves(run[i - 1], run[i - 1 + 1]);
      var t: nat, item :| t < |run[i - 1].threads| && Step(run[i - 1], t, item) == Some(run[i]);
      FifoKept(run[i - 1], t, item);
    }
  }

  lemma ReachableAccounts(s: State, r: State)
    requires Init(s) && Reaches(s, r)
    ensures Accounting(r)
  {
    InitAccounts(s);
    var run :| RunTo(run, s, r);
    RunAccounts(run, |run| - 1);
  }

  lemma InitFifo(s: State)
    requires Init(s) && Guarded(s)
    ensures Fifo(s)
  {
    InitAccounts(s);
    CountNone(s.threads, PBump);
    CountNone(s.threads, CBump);
  }

  /** The buffer is a FIFO queue: in every reachable state of a guarded buffer, what has been removed
      is a prefix of what has been inserted, and the rest is unread in the buffer, in order. */
  lemma BufferIsFifo(s: State, r: State)
    requires Init(s) && Guarded(s) && Reaches(s, r)
    ensures Fifo(r)
    ensures r.removed <= r.inserted
  {
    InitFifo(s);
    var run :| RunTo(run, s, r);
    RunFifo(run, |run| - 1);
  }

  /** In every reachable state, no producer about to store overwrites an unread item. */
  lemma NoUnreadItemOverwritten(s: State, r: State, t: nat, i: nat)
    requires Init(s) && Guarded(s) && Reaches(s, r)
    requires t < |r.threads| && r.threads[t].PBumped?
    requires |r.removed| < i <= |r.inserted|
    ensures r.n > 0 && i % r.n != r.threads[t].next % r.n
  {
    BufferIsFifo(s, r);
    StoreIsFree(r, t);
  }

  // ---------------------------------------------------------------------------------------
  // Balance and progress.

  /** Threads between their first P and their last V. */
  function Inside(threads: seq<PC>): nat {
    Count(threads, InsertPending) + Count(threads, InsertDone)
    + Count(threads, RemovePending) + Count(threads, RemoveDone)
  }

  /** In every reachable state the two counting semaphores and the threads inside add up to the
      capacity; so a buffer of one slot lets one thread inside at a time even without the mutex. */
  lemma SemaphoresBalance(s: State, r: State)
    requires Init(s) && Reaches(s, r)
    ensures r.slots + r.items + Inside(r.threads) == r.n
    ensures r.n == 1 ==> Inside(r.threads) <= 1
  {
    ReachableAccounts(s, r);
  }

  predicate Idle(pc: PC) {
    pc.PIdle? || pc.CIdle?
  }

  /** Steps left until the thread is idle again. */
  function Left(pc: PC): nat {
    match pc
    case PIdle => 0
    case PSlot(_) => 6
    case PLocked(_) => 5
    case PLoaded(_, _) => 4
    case PBumped(_, _) => 3
    case PStored => 2
    case PUnlocked => 1
    case CIdle => 0
    case CItem => 6
    case CLocked => 5
    case CLoaded(_) => 4
    case CBumped(_) => 3
    case CTook => 2
    case CUnlocked => 1
  }

  function Work(threads: seq<PC>): nat {
    if threads == [] then 0 else Left(threads[0]) + Work(threads[1..])
  }

  lemma {:induction false} WorkMove(threads: seq<PC>, t: nat, pc: PC)
    requires t < |threads|
    ensures Work(threads[t := pc]) == Work(threads) - Left(threads[t]) + Left(pc)
  {
    if t == 0 {
      assert threads[t := pc][1..] == threads[1..];
    } else {
      assert threads[t := pc][1..] == threads[1..][t - 1 := pc];
      WorkMove(threads[1..], t - 1, pc);
    }
  }

  lemma {:induction false} AllIdle(threads: seq<PC>, t: nat)
    requires Work(threads) == 0 && t < |threads|
    ensures Idle(threads[t])
  {
    if t > 0 { AllIdle(threads[1..], t - 1); }
  }

  lemma {:induction false} BusyThread(threads: seq<PC>) returns (t: nat)
    requires Work(threads) > 0
    ensures t < |threads| && !Idle(threads[t])
  {
    if !Idle(threads[0]) {
      t := 0;
    } else {
      var u := BusyThread(threads[1..]);
      t := u + 1;
    }
  }

  /** While any thread is inside, some thread inside can take a step. */
  lemma SomeoneCanMove(s: State) returns (t: nat)
    requires Accounting(s) && Work(s.threads) > 0
    ensures t < |s.threads| && !Idle(s.threads[t]) && Step(s, t, 0).Some?
  {
    if s.locking && s.mutex == 0 {
      t := CountSome(s.threads, Critical);
    } else {
      t := BusyThread(s.threads);
    }
    if s.threads[t].PBumped? { CountAt(s.threads, t, InsertPending); }
    if s.threads[t].CBumped? { CountAt(s.threads, t, RemovePending); }
  }

  lemma BusyStepReducesWork(s: State, t: nat)
    requires t < |s.threads| && |s.buf| == s.n && !Idle(s.threads[t]) && Step(s, t, 0).Some?
    ensures Work(Step(s, t, 0).value.threads) == Work(s.threads) - 1
  {
    var s' := Step(s, t, 0).value;
    WorkMove(s.threads, t, s'.threads[t]);
    match s.threads[t]
    case PSlot(_) =>
    case PLocked(_) =>
    case PLoaded(_, _) =>
    case PBumped(_, _) =>
    case PStored =>
    case PUnlocked =>
    case CItem =>
    case CLocked =>
    case CLoaded(_) =>
    case CBumped(_) =>
    case CTook =>
    case CUnlocked =>
  }

  lemma QuietBalance(s: State)
    requires Accounting(s) && Work(s.threads) == 0
    ensures forall t :: 0 <= t < |s.threads| ==> Idle(s.threads[t])
    ensures s.slots + s.items == s.n
  {
    forall t | 0 <= t < |s.threads| ensures Idle(s.threads[t]) { AllIdle(s.threads, t); }
    CountNone(s.threads, InsertPending);
    CountNone(s.threads, InsertDone);
    CountNone(s.threads, RemovePending);
    CountNone(s.threads, RemoveDone);
  }

  /** No deadlock: from every reachable state the operations in progress can be completed without
      starting new ones, in as many steps as they have left, and then the two semaphores add up to
      the capacity. So if it is not zero, a waiting producer and a waiting consumer are never both
      stuck for good. */
  lemma {:induction false} OperationsComplete(r: State) returns (run: seq<State>, quiet: State)
    requires Accounting(r)
    ensures RunTo(run, r, quiet) && |run| == Work(r.threads) + 1
    ensures forall t :: 0 <= t < |quiet.threads| ==> Idle(quiet.threads[t])
    ensures quiet.slots + quiet.items == quiet.n == r.n
    decreases Work(r.threads)
  {
    if Work(r.threads) == 0 {
      run, quiet := [r], r;
      QuietBalance(r);
    } else {
      var t := SomeoneCanMove(r);
      BusyStepReducesWork(r, t);
      var r' := Step(r, t, 0).value;
      StepAccounts(r, t, 0);
      assert Moves(r, r');
      var rest, last := OperationsComplete(r');
      run, quiet := [r] + rest, last;
      PrependRun(r, rest, last);
    }
  }

  lemma PrependRun(r: State, rest: seq<State>, last: State)
    requires |rest| > 0 && RunTo(rest, rest[0], last) && Moves(r, rest[0])
    ensures RunTo([r] + rest, r, last)
  {
    var run := [r] + rest;
    forall i | 0 <= i < |run| - 1 ensures Moves(run[i], run[i + 1]) {
      if i > 0 {
        assert run[i] == rest[i - 1] && run[i + 1] == rest[i - 1 + 1];
        assert Moves(rest[i - 1], rest[i - 1 + 1]);
      }
    }
  }

  // ---------------------------------------------------------------------------------------
  // The guard is exact.

  /** Without the mutex, a producer up to its load of the index. */
  function Loading(r: State, t: nat, x: int): State
    requires t < |r.threads| && r.slots > 0
  {
    Go(r, t, PLoaded(x, r.rear + 1)).(slots := r.slots - 1)
  }

  lemma LoadProducer(s: State, r: State, t: nat, x: int)
    requires Reaches(s, r) && |r.buf| == r.n && t < |r.threads| && !r.locking
    requires r.threads[t].PIdle? && r.slots > 0
    ensures Reaches(s, Loading(r, t, x))
  {
    var a := Go(r, t, PSlot(x)).(slots := r.slots - 1);
    StepReaches(s, r, t, x, a);
    var b := Go(a, t, PLocked(x));
    StepReaches(s, a, t, x, b);
    StepReaches(s, b, t, x, Go(b, t, PLoaded(x, r.rear + 1)));
    assert Go(b, t, PLoaded(x, r.rear + 1)) == Loading(r, t, x);
  }

  /** From there to the end of the insertion. */
  function Storing(r: State, t: nat): State
    requires t < |r.threads| && r.threads[t].PLoaded? && |r.buf| == r.n > 0
  {
    var PLoaded(x, next) := r.threads[t];
    Go(r, t, PIdle).(rear := next, buf := r.buf[next % r.n := x], inserted := r.inserted + [x], items := r.items + 1)
  }

  lemma StoreProducer(s: State, r: State, t: nat)
    requires Reaches(s, r) && |r.buf| == r.n > 0 && t < |r.threads| && !r.locking
    requires r.threads[t].PLoaded?
    ensures Reaches(s, Storing(r, t))
  {
    var PLoaded(x, next) := r.threads[t];
    var a := Go(r, t, PBumped(x, next)).(rear := next);
    StepReaches(s, r, t, 0, a);
    var b := Go(a, t, PStored).(buf := a.buf[next % r.n := x], inserted := a.inserted + [x]);
    StepReaches(s, a, t, 0, b);
    var c := Go(b, t, PUnlocked);
    StepReaches(s, b, t, 0, c);
    var d := Go(c, t, PIdle).(items := c.items + 1);
    StepReaches(s, c, t, 0, d);
    assert d == Storing(r, t);
  }

  function LoadingC(r: State, t: nat): State
    requires t < |r.threads| && r.items > 0
  {
    Go(r, t, CLoaded(r.front + 1)).(items := r.items - 1)
  }

  lemma LoadConsumer(s: State, r: State, t: nat)
    requires Reaches(s, r) && |r.buf| == r.n && t < |r.threads| && !r.locking
    requires r.threads[t].CIdle? && r.items > 0
    ensures Reaches(s, LoadingC(r, t))
  {
    var a := Go(r, t, CItem).(items := r.items - 1);
    StepReaches(s, r, t, 0, a);
    var b := Go(a, t, CLocked);
    StepReaches(s, a, t, 0, b);
    StepReaches(s, b, t, 0, Go(b, t, CLoaded(r.front + 1)));
    assert Go(b, t, CLoaded(r.front + 1)) == LoadingC(r, t);
  }

  function Taking(r: State, t: nat): State
    requires t < |r.threads| && r.threads[t].CLoaded? && |r.buf| == r.n > 0
  {
    var next := r.threads[t].next;
    Go(r, t, CTook).(front := next, removed := r.removed + [r.buf[next % r.n]])
  }

  lemma TakeConsumer(s: State, r: State, t: nat)
    requires Reaches(s, r) && |r.buf| == r.n > 0 && t < |r.threads| && !r.locking
    requires r.threads[t].CLoaded?
    ensures Reaches(s, Taking(r, t))
  {
    var next := r.threads[t].next;
    var a := Go(r, t, CBumped(next)).(front := next);
    StepReaches(s, r, t, 0, a);
    StepReaches(s, a, t, 0, Go(a, t, CTook).(removed := a.removed + [a.buf[next % r.n]]));
    assert Go(a, t, CTook).(removed := a.removed + [a.buf[next % r.n]]) == Taking(r, t);
  }

  /** A state with the threads of `s` and two insertions done. */
  function Inserted(s: State, rear: nat, buf: seq<int>): State
    requires s.n >= 2
  {
    s.(slots := s.n - 2, items := 2, rear := rear, buf := buf, inserted := [1, 2])
  }

  lemma BothLoad(s: State, p: nat, q: nat) returns (r: State)
    requires Init(s) && !s.locking && s.n >= 2
    requires p < |s.threads| && q < |s.threads| && p != q && s.threads[p].PIdle? && s.threads[q].PIdle?
    ensures r == s.(threads := s.threads[p := PLoaded(1, 1)][q := PLoaded(2, 1)], slots := s.n - 2)
    ensures Reaches(s, r)
  {
    StartReaches(s);
    LoadProducer(s, s, p, 1);
    LoadProducer(s, Loading(s, p, 1), q, 2);
    r := Loading(Loading(s, p, 1), q, 2);
  }

  /** Two producers that load the same index both store into the same slot. */
  lemma OverlappingInserts(s: State, p: nat, q: nat)
    requires Init(s) && !s.locking && s.n >= 2
    requires p < |s.threads| && q < |s.threads| && p != q && s.threads[p].PIdle? && s.threads[q].PIdle?
    ensures Reaches(s, Inserted(s, 1, s.buf[1 % s.n := 2]))
  {
    var r := BothLoad(s, p, q);
    StoreProducer(s, r, p);
    StoreProducer(s, Storing(r, p), q);
    var r' := Storing(Storing(r, p), q);
    assert r'.threads == s.threads;
    assert r'.buf == s.buf[1 % s.n := 2];
    assert r' == Inserted(s, 1, s.buf[1 % s.n := 2]);
  }

  /** Two insertions one after the other. */
  lemma SuccessiveInserts(s: State, p: nat)
    requires Init(s) && !s.locking && s.n >= 2
    requires p < |s.threads| && s.threads[p].PIdle?
    ensures Reaches(s, Inserted(s, 2, s.buf[1 % s.n := 1][2 % s.n := 2]))
  {
    StartReaches(s);
    LoadProducer(s, s, p, 1);
    StoreProducer(s, Loading(s, p, 1), p);
    var r := Storing(Loading(s, p, 1), p);
    assert r == s.(slots := s.n - 1, items := 1, rear := 1, buf := s.buf[1 % s.n := 1], inserted := [1]);
    LoadProducer(s, r, p, 2);
    StoreProducer(s, Loading(r, p, 2), p);
    var r' := Storing(Loading(r, p, 2), p);
    assert r'.threads == s.threads;
    assert r' == Inserted(s, 2, s.buf[1 % s.n := 1][2 % s.n := 2]);
  }

  lemma OneTake(s: State, r: State, c: nat)
    requires Reaches(s, r) && |r.buf| == r.n > 0 && c < |r.threads| && !r.locking
    requires r.threads[c].CIdle? && r.items > 0
    ensures exists r' :: Reaches(s, r') && r'.inserted == r.inserted
              && r'.removed == r.removed + [r.buf[(r.front + 1) % r.n]]
  {
    LoadConsumer(s, r, c);
    TakeConsumer(s, LoadingC(r, c), c);
    assert Reaches(s, Taking(LoadingC(r, c), c));
  }

  lemma TwoTakes(s: State, r: State, c: nat, d: nat)
    requires Reaches(s, r) && |r.buf| == r.n > 0 && !r.locking
    requires c < |r.threads| && d < |r.threads| && c != d
    requires r.threads[c].CIdle? && r.threads[d].CIdle? && r.items >= 2
    ensures
      var item := r.buf[(r.front + 1) % r.n];
      exists r' :: Reaches(s, r') && r'.inserted == r.inserted && r'.removed == r.removed + [item, item]
  {
    LoadConsumer(s, r, c);
    LoadConsumer(s, LoadingC(r, c), d);
    var l := LoadingC(LoadingC(r, c), d);
    TakeConsumer(s, l, c);
    TakeConsumer(s, Taking(l, c), d);
    assert Reaches(s, Taking(Taking(l, c), d));
  }

  /** Two producers without the mutex: both take the same index, and the first item is lost. */
  lemma TwoProducersBreak(s: State, p: nat, q: nat, c: nat)
    requires Init(s) && !s.locking && s.n >= 2
    requires p < |s.threads| && q < |s.threads| && c < |s.threads| && p != q
    requires s.threads[p].PIdle? && s.threads[q].PIdle? && s.threads[c].CIdle?
    ensures exists r :: Reaches(s, r) && !(r.removed <= r.inserted)
  {
    OverlappingInserts(s, p, q);
    var r := Inserted(s, 1, s.buf[1 % s.n := 2]);
    OneTake(s, r, c);
    var r' :| Reaches(s, r') && r'.inserted == r.inserted && r'.removed == r.removed + [r.buf[1 % s.n]];
    assert r'.removed[0] == 2 && r'.inserted[0] == 1;
  }

  /** Two consumers without the mutex: both take the same item. */
  lemma TwoConsumersBreak(s: State, p: nat, c: nat, d: nat)
    requires Init(s) && !s.locking && s.n >= 2
    requires p < |s.threads| && c < |s.threads| && d < |s.threads| && c != d
    requires s.threads[p].PIdle? && s.threads[c].CIdle? && s.threads[d].CIdle?
    ensures exists r :: Reaches(s, r) && !(r.removed <= r.inserted)
  {
    SuccessiveInserts(s, p);
    ModDiffers(1, 2, s.n);
    var r := Inserted(s, 2, s.buf[1 % s.n := 1][2 % s.n := 2]);
    TwoTakes(s, r, c, d);
    var r' :| Reaches(s, r') && r'.inserted == r.inserted && r'.removed == r.removed + [r.buf[1 % s.n], r.buf[1 % s.n]];
    assert r'.removed[1] == 1 && r'.inserted[1] == 2;
  }

  lemma {:induction false} TwoOf(threads: seq<PC>, z: Zone) returns (t: nat, u: nat)
    requires Count(threads, z) >= 2
    ensures t < u < |threads| && In(threads[t], z) && In(threads[u], z)
  {
    if In(threads[0], z) {
      t := 0;
      u := CountSome(threads[1..], z);
      u := u + 1;
    } else {
      t, u := TwoOf(threads[1..], z);
      t, u := t + 1, u + 1;
    }
  }

  /** With no producers nothing is ever inserted; with no consumers nothing is ever removed. */
  ghost predicate OneSided(s: State) {
    && |s.buf| == s.n
    && ((Count(s.threads, Producers) == 0 && s.inserted == []) || (Count(s.threads, Consumers) == 0 && s.removed == []))
  }

  lemma StepOneSided(s: State, t: nat, item: int)
    requires OneSided(s) && t < |s.threads| && Step(s, t, item).Some?
    ensures OneSided(Step(s, t, item).value)
  {
    var s' := Step(s, t, item).value;
    if In(s.threads[t], Producers) {
      CountAt(s.threads, t, Producers);
      ProducerBalances(s, t, item);
    } else {
      CountAt(s.threads, t, Consumers);
      ConsumerBalances(s, t, item);
    }
    CountMove(s.threads, t, s'.threads[t], Producers);
    CountMove(s.threads, t, s'.threads[t], Consumers);
  }

  lemma {:induction false} RunOneSided(run: seq<State>, i: nat)
    requires IsRun(run) && i < |run| && OneSided(run[0])
    ensures OneSided(run[i])
  {
    if i > 0 {
      RunOneSided(run, i - 1);
      assert Moves(run[i - 1], run[i - 1 + 1]);
      var t: nat, item :| t < |run[i - 1].threads| && Step(run[i - 1], t, item) == Some(run[i]);
      StepOneSided(run[i - 1], t, item);
    }
  }

  lemma OneSidedIsFifo(s: State, r: State)
    requires Init(s) && Reaches(s, r)
    requires Count(s.threads, Producers) == 0 || Count(s.threads, Consumers) == 0
    ensures r.removed <= r.inserted
  {
    ReachableAccounts(s, r);
    var run :| RunTo(run, s, r);
    RunOneSided(run, |run| - 1);
  }

  lemma UnguardedBreaks(s: State)
    requires Init(s) && !Guarded(s)
    requires Count(s.threads, Producers) > 0 && Count(s.threads, Consumers) > 0
    ensures exists r :: Reaches(s, r) && !(r.removed <= r.inserted)
  {
    var p := CountSome(s.threads, Producers);
    var c := CountSome(s.threads, Consumers);
    if Count(s.threads, Producers) >= 2 {
      var q, q' := TwoOf(s.threads, Producers);
      TwoProducersBreak(s, q, q', c);
    } else {
      var d, d' := TwoOf(s.threads, Consumers);
      TwoConsumersBreak(s, p, d, d');
    }
  }

  /** The exact condition: every run is first-in first-out if and only if the mutex is in place, or
      there is at most one slot, or at most one producer and one consumer, or one side is missing. */
  lemma FifoExactly(s: State)
    requires Init(s)
    ensures (forall r :: Reaches(s, r) ==> r.removed <= r.inserted)
       <==> Guarded(s) || Count(s.threads, Producers) == 0 || Count(s.threads, Consumers) == 0
  {
    if Guarded(s) {
      forall r | Reaches(s, r) ensures r.removed <= r.inserted { BufferIsFifo(s, r); }
    } else if Count(s.threads, Producers) == 0 || Count(s.threads, Consumers) == 0 {
      forall r | Reaches(s, r) ensures r.removed <= r.inserted { OneSidedIsFifo(s, r); }
    } else {
      UnguardedBreaks(s);
    }
  }
}
