/** The semaphore-guarded bounded buffer under every interleaving of any number of producers and
    consumers. Each semaphore operation, each load and store of an index and each access to the
    array is a step of its own. With `locking` off the two mutex operations do nothing, which is
    the variant the exercise on the necessity of the mutex asks about. */
module Sbuf {
  import opened Coding

  /** Where a thread stands in sbuf_insert (P) or sbuf_remove (C). */
  datatype PC =
    | PIdle | PSlot(item: int) | PLocked(item: int) | PLoaded(item: int, next: nat)
    | PBumped(item: int, next: nat) | PStored | PUnlocked
    | CIdle | CItem | CLocked | CLoaded(next: nat) | CBumped(next: nat) | CTook | CUnlocked

  datatype State = State(
    n: nat, locking: bool,
    buf: seq<int>, front: nat, rear: nat,
    mutex: nat, slots: nat, items: nat,
    threads: seq<PC>,
    inserted: seq<int>,     // items stored so far, in order
    removed: seq<int>)      // items taken so far, in order

  /** sbuf_init, with every thread idle. */
  ghost predicate Init(s: State) {
    && s.buf == seq(s.n, _ => 0) && s.front == 0 && s.rear == 0
    && s.mutex == 1 && s.slots == s.n && s.items == 0
    && (forall t :: 0 <= t < |s.threads| ==> s.threads[t].PIdle? || s.threads[t].CIdle?)
    && s.inserted == [] && s.removed == []
  }

  function Go(s: State, t: nat, pc: PC): State
    requires t < |s.threads|
  {
    s.(threads := s.threads[t := pc])
  }

  /** The next step of thread `t`; `None` while it is blocked. A producer that starts an insertion
      inserts `item`. */
  function Step(s: State, t: nat, item: int): (r: Option<State>)
    requires t < |s.threads| && |s.buf| == s.n
    ensures r.Some? ==> r.value.n == s.n == |r.value.buf| && r.value.locking == s.locking
    ensures r.Some? ==> |r.value.threads| == |s.threads|
  {
    match s.threads[t]
    case PIdle => if s.slots == 0 then None else Some(Go(s, t, PSlot(item)).(slots := s.slots - 1))
    case PSlot(x) => Lock(s, t, PLocked(x))
    case PLocked(x) => Some(Go(s, t, PLoaded(x, s.rear + 1)))
    case PLoaded(x, next) => Some(Go(s, t, PBumped(x, next)).(rear := next))
    case PBumped(x, next) =>
      if s.n == 0 then None
      else Some(Go(s, t, PStored).(buf := s.buf[next % s.n := x], inserted := s.inserted + [x]))
    case PStored => Some(Unlock(s, t, PUnlocked))
    case PUnlocked => Some(Go(s, t, PIdle).(items := s.items + 1))
    case CIdle => if s.items == 0 then None else Some(Go(s, t, CItem).(items := s.items - 1))
    case CItem => Lock(s, t, CLocked)
    case CLocked => Some(Go(s, t, CLoaded(s.front + 1)))
    case CLoaded(next) => Some(Go(s, t, CBumped(next)).(front := next))
    case CBumped(next) =>
      if s.n == 0 then None
      else Some(Go(s, t, CTook).(removed := s.removed + [s.buf[next % s.n]]))
    case CTook => Some(Unlock(s, t, CUnlocked))
    case CUnlocked => Some(Go(s, t, CIdle).(slots := s.slots + 1))
  }

  function Lock(s: State, t: nat, pc: PC): Option<State>
    requires t < |s.threads|
  {
    if !s.locking then Some(Go(s, t, pc))
    else if s.mutex == 0 then None
    else Some(Go(s, t, pc).(mutex := s.mutex - 1))
  }

  function Unlock(s: State, t: nat, pc: PC): State
    requires t < |s.threads|
  {
    if s.locking then Go(s, t, pc).(mutex := s.mutex + 1) else Go(s, t, pc)
  }

  // ---------------------------------------------------------------------------------------
  // Counting threads by where they are.

  datatype Zone = InsertPending | InsertDone | RemovePending | RemoveDone | Critical
                | PWindow | CWindow | PBump | CBump | Producers | Consumers

  predicate In(pc: PC, z: Zone) {
    match z
    case InsertPending => pc.PSlot? || pc.PLocked? || pc.PLoaded? || pc.PBumped?
    case InsertDone => pc.PStored? || pc.PUnlocked?
    case RemovePending => pc.CItem? || pc.CLocked? || pc.CLoaded? || pc.CBumped?
    case RemoveDone => pc.CTook? || pc.CUnlocked?
    case Critical => pc.PLocked? || pc.PLoaded? || pc.PBumped? || pc.PStored?
                  || pc.CLocked? || pc.CLoaded? || pc.CBumped? || pc.CTook?
    case PWindow => pc.PLoaded? || pc.PBumped?
    case CWindow => pc.CLoaded? || pc.CBumped?
    case PBump => pc.PBumped?
    case CBump => pc.CBumped?
    case Producers =>
      pc.PIdle? || pc.PSlot? || pc.PLocked? || pc.PLoaded? || pc.PBumped? || pc.PStored? || pc.PUnlocked?
    case Consumers => pc.CIdle? || pc.CItem? || pc.CLocked? || pc.CLoaded? || pc.CBumped? || pc.CTook? || pc.CUnlocked?
  }

  function One(pc: PC, z: Zone): nat {
    if In(pc, z) then 1 else 0
  }

  function Count(threads: seq<PC>, z: Zone): nat {
    if threads == [] then 0 else One(threads[0], z) + Count(threads[1..], z)
  }

  lemma {:induction false} CountMove(threads: seq<PC>, t: nat, pc: PC, z: Zone)
    requires t < |threads|
    ensures Count(threads[t := pc], z) == Count(threads, z) - One(threads[t], z) + One(pc, z)
  {
    if t == 0 {
      assert threads[t := pc][1..] == threads[1..];
    } else {
      assert threads[t := pc][1..] == threads[1..][t - 1 := pc];
      CountMove(threads[1..], t - 1, pc, z);
    }
  }

  lemma {:induction false} CountIncludes(threads: seq<PC>, small: Zone, large: Zone)
    requires forall pc: PC :: In(pc, small) ==> In(pc, large)
    ensures Count(threads, small) <= Count(threads, large)
  {
    if threads != [] {
      CountIncludes(threads[1..], small, large);
    }
  }

  lemma {:induction false} CountAt(threads: seq<PC>, t: nat, z: Zone)
    requires t < |threads| && In(threads[t], z)
    ensures Count(threads, z) >= 1
  {
    if t > 0 { CountAt(threads[1..], t - 1, z); }
  }

  lemma {:induction false} CountTwo(threads: seq<PC>, t: nat, u: nat, z: Zone)
    requires t < u < |threads| && In(threads[t], z) && In(threads[u], z)
    ensures Count(threads, z) >= 2
  {
    if t == 0 {
      CountAt(threads[1..], u - 1, z);
    } else {
      CountTwo(threads[1..], t - 1, u - 1, z);
    }
  }

  lemma {:induction false} CountSome(threads: seq<PC>, z: Zone) returns (t: nat)
    requires Count(threads, z) >= 1
    ensures t < |threads| && In(threads[t], z)
  {
    if In(threads[0], z) {
      t := 0;
    } else {
      var u := CountSome(threads[1..], z);
      t := u + 1;
    }
  }

  lemma {:induction false} CountNone(threads: seq<PC>, z: Zone)
    requires forall t :: 0 <= t < |threads| ==> !In(threads[t], z)
    ensures Count(threads, z) == 0
  {
    if threads != [] { CountNone(threads[1..], z); }
  }

  // ---------------------------------------------------------------------------------------
  // Semaphore accounting, which needs no mutex.

  ghost predicate Accounting(s: State) {
    && |s.buf| == s.n && |s.removed| <= |s.inserted|
    && s.slots + Count(s.threads, InsertPending) + (|s.inserted| - |s.removed|) + Count(s.threads, RemoveDone) == s.n
    && s.items + Count(s.threads, RemovePending) + Count(s.threads, InsertDone) == |s.inserted| - |s.removed|
    && (s.locking ==> s.mutex + Count(s.threads, Critical) == 1)
  }

  lemma InitAccounts(s: State)
    requires Init(s)
    ensures Accounting(s)
  {
    CountNone(s.threads, InsertPending);
    CountNone(s.threads, RemoveDone);
    CountNone(s.threads, RemovePending);
    CountNone(s.threads, InsertDone);
    CountNone(s.threads, Critical);
  }

  /** What one thread's step does to the accounts: what it gains in one place it loses in another. */
  ghost predicate Balanced(s: State, t: nat, s': State)
    requires t < |s.threads| == |s'.threads|
  {
    var pc, pc' := s.threads[t], s'.threads[t];
    var held, held' := |s.inserted| - |s.removed|, |s'.inserted| - |s'.removed|;
    && s'.threads == s.threads[t := pc'] && s'.n == s.n && s'.locking == s.locking && |s'.buf| == s'.n
    && s'.slots + One(pc', InsertPending) + held' + One(pc', RemoveDone)
       == s.slots + One(pc, InsertPending) + held + One(pc, RemoveDone)
    && s'.items + One(pc', RemovePending) + One(pc', InsertDone) - held'
       == s.items + One(pc, RemovePending) + One(pc, InsertDone) - held
    && (s.locking ==> s'.mutex + One(pc', Critical) == s.mutex + One(pc, Critical))
  }

  lemma ProducerBalances(s: State, t: nat, item: int)
    requires t < |s.threads| && |s.buf| == s.n && Step(s, t, item).Some? && In(s.threads[t], Producers)
    ensures Balanced(s, t, Step(s, t, item).value)
  {
    match s.threads[t]
    case PIdle =>
    case PSlot(_) =>
    case PLocked(_) =>
    case PLoaded(_, _) =>
    case PBumped(_, _) =>
    case PStored =>
    case PUnlocked =>
  }

  lemma ConsumerBalances(s: State, t: nat, item: int)
    requires t < |s.threads| && |s.buf| == s.n && Step(s, t, item).Some? && In(s.threads[t], Consumers)
    ensures Balanced(s, t, Step(s, t, item).value)
  {
    match s.threads[t]
    case CIdle =>
    case CItem =>
    case CLocked =>
    case CLoaded(_) =>
    case CBumped(_) =>
    case CTook =>
    case CUnlocked =>
  }

  lemma BalancedAccounts(s: State, t: nat, s': State)
    requires Accounting(s) && t < |s.threads| == |s'.threads| && Balanced(s, t, s')
    requires |s'.removed| <= |s'.inserted|
    ensures Accounting(s')
  {
    var pc := s'.threads[t];
    CountMove(s.threads, t, pc, InsertPending);
    CountMove(s.threads, t, pc, InsertDone);
    CountMove(s.threads, t, pc, RemovePending);
    CountMove(s.threads, t, pc, RemoveDone);
    CountMove(s.threads, t, pc, Critical);
  }

  /** Every step of every thread keeps the accounts, with or without the mutex. */
  lemma StepAccounts(s: State, t: nat, item: int)
    requires Accounting(s) && t < |s.threads| && Step(s, t, item).Some?
    ensures Accounting(Step(s, t, item).value)
  {
    if s.threads[t].CBumped? {
      CountAt(s.threads, t, RemovePending);
    }
    if In(s.threads[t], Producers) {
      ProducerBalances(s, t, item);
    } else {
      ConsumerBalances(s, t, item);
    }
    BalancedAccounts(s, t, Step(s, t, item).value);
  }

  // ---------------------------------------------------------------------------------------
  // First in, first out.

  /** When the index updates of two producers, or of two consumers, cannot overlap. */
  ghost predicate Guarded(s: State) {
    s.locking || s.n <= 1 || (Count(s.threads, Producers) <= 1 && Count(s.threads, Consumers) <= 1)
  }

  lemma OneAtATime(s: State)
    requires Accounting(s) && Guarded(s)
    ensures Count(s.threads, PWindow) <= 1 && Count(s.threads, CWindow) <= 1
  {
    CountIncludes(s.threads, PWindow, Critical);
    CountIncludes(s.threads, CWindow, Critical);
    CountIncludes(s.threads, PWindow, InsertPending);
    CountIncludes(s.threads, CWindow, RemovePending);
    CountIncludes(s.threads, PWindow, Producers);
    CountIncludes(s.threads, CWindow, Consumers);
  }

  /** The indices follow the histories, one ahead while a thread is between bump and access. */
  ghost predicate Indices(s: State) {
    && s.rear == |s.inserted| + Count(s.threads, PBump)
    && s.front == |s.removed| + Count(s.threads, CBump)
    && (forall t :: 0 <= t < |s.threads| && In(s.threads[t], PWindow) ==> s.threads[t].next == |s.inserted| + 1)
    && (forall t :: 0 <= t < |s.threads| && In(s.threads[t], CWindow) ==> s.threads[t].next == |s.removed| + 1)
  }

  /** The unread part of the buffer holds the items inserted and not yet removed. */
  ghost predicate Contents(s: State) {
    && |s.buf| == s.n
    && |s.removed| <= |s.inserted| <= |s.removed| + s.n
    && s.removed == s.inserted[..|s.removed|]
    && forall i :: |s.removed| < i <= |s.inserted| ==> s.n > 0 && s.buf[i % s.n] == s.inserted[i - 1]
  }

  ghost predicate Fifo(s: State) {
    Accounting(s) && Guarded(s) && Indices(s) && Contents(s)
  }

  lemma OnlyOne(threads: seq<PC>, t: nat, z: Zone)
    requires t < |threads| && In(threads[t], z) && Count(threads, z) <= 1
    ensures forall u :: 0 <= u < |threads| && u != t ==> !In(threads[u], z)
    ensures Count(threads, z) == 1
  {
    CountAt(threads, t, z);
    forall u | 0 <= u < |threads| && u != t ensures !In(threads[u], z) {
      if In(threads[u], z) {
        CountTwo(threads, if t < u then t else u, if t < u then u else t, z);
      }
    }
  }

  lemma ModDiffers(a: nat, b: nat, n: nat)
    requires a < b < a + n
    ensures a % n != b % n
  {
    var d := b / n - a / n;
    assert b - a == n * d + (b % n - a % n);
    assert d >= 1 ==> n * d >= n;
    assert d <= 0 ==> n * d <= 0;
  }

  lemma GuardKept(s: State, t: nat, s': State)
    requires Guarded(s) && t < |s.threads| == |s'.threads| && Balanced(s, t, s')
    requires In(s.threads[t], Producers) <==> In(s'.threads[t], Producers)
    ensures Guarded(s')
  {
    CountMove(s.threads, t, s'.threads[t], Producers);
    CountMove(s.threads, t, s'.threads[t], Consumers);
  }

  /** A consumer's step leaves the producers' side of the indices alone, and the other way round. */
  lemma {:induction false} SideKept(threads: seq<PC>, t: nat, pc: PC, window: Zone, bump: Zone)
    requires t < |threads|
    requires !In(threads[t], window) && !In(pc, window) && !In(threads[t], bump) && !In(pc, bump)
    ensures Count(threads[t := pc], window) == Count(threads, window)
    ensures Count(threads[t := pc], bump) == Count(threads, bump)
  {
    CountMove(threads, t, pc, window);
    CountMove(threads, t, pc, bump);
  }

  /** With at most one producer in its window, that thread alone accounts for the bump. */
  lemma WindowIsOne(threads: seq<PC>, t: nat, window: Zone, bump: Zone)
    requires t < |threads| && In(threads[t], window) && Count(threads, window) <= 1
    requires forall pc: PC :: In(pc, bump) ==> In(pc, window)
    ensures Count(threads, bump) == One(threads[t], bump)
    ensures forall u :: 0 <= u < |threads| && u != t ==> !In(threads[u], window)
  {
    OnlyOne(threads, t, window);
    CountIncludes(threads, bump, window);
    if In(threads[t], bump) {
      CountAt(threads, t, bump);
    } else {
      CountNone(threads, bump);
    }
  }

  lemma NoWindowNoBump(threads: seq<PC>, t: nat, pc: PC, window: Zone, bump: Zone)
    requires t < |threads| && In(threads[t], window) && !In(pc, window) && Count(threads, window) <= 1
    requires forall pc: PC :: In(pc, bump) ==> In(pc, window)
    ensures Count(threads[t := pc], bump) == 0
  {
    OnlyOne(threads, t, window);
    CountNone(threads[t := pc], bump);
  }

  /** A producer's step within its window: what its own side of the indices needs. */
  lemma ProducerWindow(s: State, t: nat, item: int)
    requires |s.buf| == s.n && Indices(s) && t < |s.threads| && Step(s, t, item).Some?
    requires In(s.threads[t], Producers)
    requires Count(s.threads, PWindow) <= 1 && Count(Step(s, t, item).value.threads, PWindow) <= 1
    ensures var s' := Step(s, t, item).value;
      && s'.rear == |s'.inserted| + Count(s'.threads, PBump)
      && forall u :: 0 <= u < |s'.threads| && In(s'.threads[u], PWindow) ==> s'.threads[u].next == |s'.inserted| + 1
  {
    var s' := Step(s, t, item).value;
    var pc := s'.threads[t];
    assert s'.threads == s.threads[t := pc];
    match s.threads[t]
    case PLocked(_) =>
      WindowIsOne(s'.threads, t, PWindow, PBump);
      CountMove(s.threads, t, pc, PBump);
    case PLoaded(_, _) =>
      WindowIsOne(s.threads, t, PWindow, PBump);
      WindowIsOne(s'.threads, t, PWindow, PBump);
    case PBumped(_, _) =>
      WindowIsOne(s.threads, t, PWindow, PBump);
      NoWindowNoBump(s.threads, t, pc, PWindow, PBump);
    case _ =>
      SideKept(s.threads, t, pc, PWindow, PBump);
  }

  lemma ProducerIndices(s: State, t: nat, item: int)
    requires |s.buf| == s.n && Indices(s) && t < |s.threads| && In(s.threads[t], Producers) && Step(s, t, item).Some?
    requires Count(s.threads, PWindow) <= 1 && Count(Step(s, t, item).value.threads, PWindow) <= 1
    ensures Indices(Step(s, t, item).value)
  {
    var s' := Step(s, t, item).value;
    ProducerWindow(s, t, item);
    assert s'.threads == s.threads[t := s'.threads[t]];
    SideKept(s.threads, t, s'.threads[t], CWindow, CBump);
  }

  /** A consumer's step within its window: what its own side of the indices needs. */
  lemma ConsumerWindow(s: State, t: nat, item: int)
    requires |s.buf| == s.n && Indices(s) && t < |s.threads| && Step(s, t, item).Some?
    requires In(s.threads[t], Consumers)
    requires Count(s.threads, CWindow) <= 1 && Count(Step(s, t, item).value.threads, CWindow) <= 1
    ensures var s' := Step(s, t, item).value;
      && s'.front == |s'.removed| + Count(s'.threads, CBump)
      && forall u :: 0 <= u < |s'.threads| && In(s'.threads[u], CWindow) ==> s'.threads[u].next == |s'.removed| + 1
  {
    var s' := Step(s, t, item).value;
    var pc := s'.threads[t];
    assert s'.threads == s.threads[t := pc];
    match s.threads[t]
    case CLocked =>
      WindowIsOne(s'.threads, t, CWindow, CBump);
      CountMove(s.threads, t, pc, CBump);
    case CLoaded(_) =>
      WindowIsOne(s.threads, t, CWindow, CBump);
      WindowIsOne(s'.threads, t, CWindow, CBump);
    case CBumped(_) =>
      WindowIsOne(s.threads, t, CWindow, CBump);
      NoWindowNoBump(s.threads, t, pc, CWindow, CBump);
    case _ =>
      SideKept(s.threads, t, pc, CWindow, CBump);
  }

  lemma ConsumerIndices(s: State, t: nat, item: int)
    requires |s.buf| == s.n && Indices(s) && t < |s.threads| && In(s.threads[t], Consumers) && Step(s, t, item).Some?
    requires Count(s.threads, CWindow) <= 1 && Count(Step(s, t, item).value.threads, CWindow) <= 1
    ensures Indices(Step(s, t, item).value)
  {
    var s' := Step(s, t, item).value;
    ConsumerWindow(s, t, item);
    assert s'.threads == s.threads[t := s'.threads[t]];
    SideKept(s.threads, t, s'.threads[t], PWindow, PBump);
  }

  /** The slot a producer stores into holds no unread item. */
  lemma StoreIsFree(s: State, t: nat)
    requires Fifo(s) && t < |s.threads| && s.threads[t].PBumped?
    ensures s.n > 0 && |s.inserted| - |s.removed| < s.n
    ensures forall i :: |s.removed| < i <= |s.inserted| ==> i % s.n != s.threads[t].next % s.n
  {
    CountAt(s.threads, t, InsertPending);
    forall i | |s.removed| < i <= |s.inserted| ensures i % s.n != s.threads[t].next % s.n {
      ModDiffers(i, s.threads[t].next, s.n);
    }
  }

  /** Only the two array accesses touch the buffer and the histories. */
  lemma OtherStepsAreQuiet(s: State, t: nat, item: int)
    requires t < |s.threads| && |s.buf| == s.n && Step(s, t, item).Some?
    requires !s.threads[t].PBumped? && !s.threads[t].CBumped?
    ensures var s' := Step(s, t, item).value; s'.buf == s.buf && s'.inserted == s.inserted && s'.removed == s.removed
  {
  }

  lemma StoreKeepsContents(s: State, t: nat, item: int)
    requires Fifo(s) && t < |s.threads| && s.threads[t].PBumped? && Step(s, t, item).Some?
    ensures Contents(Step(s, t, item).value)
  {
    StoreIsFree(s, t);
    var next := s.threads[t].next;
    var s' := Go(s, t, PStored).(buf := s.buf[next % s.n := s.threads[t].item],
                                 inserted := s.inserted + [s.threads[t].item]);
    assert Step(s, t, item).value == s';
    assert s'.inserted[..|s.removed|] == s.inserted[..|s.removed|];
    forall i | |s'.removed| < i <= |s'.inserted| ensures s'.buf[i % s.n] == s'.inserted[i - 1] {
      assert i <= |s.inserted| ==> i % s.n != next % s.n;
    }
  }

  lemma TakeKeepsContents(s: State, t: nat, item: int)
    requires Fifo(s) && t < |s.threads| && s.threads[t].CBumped? && Step(s, t, item).Some?
    ensures Contents(Step(s, t, item).value)
  {
    CountAt(s.threads, t, RemovePending);
    var next := s.threads[t].next;
    var s' := Go(s, t, CTook).(removed := s.removed + [s.buf[next % s.n]]);
    assert Step(s, t, item).value == s';
    assert s.buf[next % s.n] == s.inserted[next - 1];
    assert s.inserted[..|s.removed| + 1] == s.inserted[..|s.removed|] + [s.inserted[|s.removed|]];
  }

  lemma ContentsKept(s: State, t: nat, item: int)
    requires Fifo(s) && t < |s.threads| && Step(s, t, item).Some?
    ensures Contents(Step(s, t, item).value)
  {
    if s.threads[t].PBumped? {
      StoreKeepsContents(s, t, item);
    } else if s.threads[t].CBumped? {
      TakeKeepsContents(s, t, item);
    } else {
      OtherStepsAreQuiet(s, t, item);
    }
  }

  lemma ProducerKeepsOrder(s: State, t: nat, item: int)
    requires Accounting(s) && Guarded(s) && Indices(s) && |s.buf| == s.n
    requires t < |s.threads| && Step(s, t, item).Some? && In(s.threads[t], Producers)
    ensures Guarded(Step(s, t, item).value) && Indices(Step(s, t, item).value)
  {
    var s' := Step(s, t, item).value;
    StepAccounts(s, t, item);
    ProducerBalances(s, t, item);
    GuardKept(s, t, s');
    OneAtATime(s);
    OneAtATime(s');
    ProducerIndices(s, t, item);
  }

  lemma ConsumerKeepsOrder(s: State, t: nat, item: int)
    requires Accounting(s) && Guarded(s) && Indices(s) && |s.buf| == s.n
    requires t < |s.threads| && Step(s, t, item).Some? && In(s.threads[t], Consumers)
    ensures Guarded(Step(s, t, item).value) && Indices(Step(s, t, item).value)
  {
    var s' := Step(s, t, item).value;
    StepAccounts(s, t, item);
    ConsumerBalances(s, t, item);
    GuardKept(s, t, s');
    OneAtATime(s);
    OneAtATime(s');
    ConsumerIndices(s, t, item);
  }

  lemma FifoKept(s: State, t: nat, item: int)
    requires Fifo(s) && t < |s.threads| && Step(s, t, item).Some?
    ensures Fifo(Step(s, t, item).value)
  {
    StepAccounts(s, t, item);
    ContentsKept(s, t, item);
    if In(s.threads[t], Producers) {
      ProducerKeepsOrder(s, t, item);
    } else {
      ConsumerKeepsOrder(s, t, item);
    }
  }
}
