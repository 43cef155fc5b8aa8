/** Group commit and memtable together: what a reader at a snapshot finds is what the acknowledged
    batches made, however many groups are under way. */
module CommitReads {
  import opened Coding
  import opened Keys
  import opened Lsm
  import opened Batches
  import opened WriteQueue
  import opened WriteQueueTheorems
  import Memtable

  /** The memtable entry of a numbered operation. */
  function EntryAt(mem: seq<(nat, Operation)>, i: nat): Entry
    requires i < |mem|
  {
    Memtable.EntryOf(mem[i].0, mem[i].1)
  }

  /** `es` holds exactly the entries of `mem`, in the order of the memtable. */
  ghost predicate Tabulates(es: seq<Entry>, mem: seq<(nat, Operation)>) {
    && Sorted(es)
    && (forall i :: 0 <= i < |mem| ==> EntryAt(mem, i) in es)
    && forall e :: e in es ==> exists i :: 0 <= i < |mem| && EntryAt(mem, i) == e
  }

  /** The last operation on `k` among the first `n`. */
  function LastOn(mem: seq<(nat, Operation)>, n: nat, k: Key): (r: Option<Entry>)
    requires n <= |mem|
    ensures r.Some? ==> exists i :: 0 <= i < n && EntryAt(mem, i) == r.value && r.value.key == k
  {
    if n == 0 then None
    else if mem[n - 1].1.key == k then
      assert EntryAt(mem, n - 1).key == k;
      Some(EntryAt(mem, n - 1))
    else LastOn(mem, n - 1, k)
  }

  lemma {:induction false} LastOnIsLast(mem: seq<(nat, Operation)>, n: nat, k: Key, i: nat)
    requires i < n <= |mem| && mem[i].1.key == k && Increasing(mem)
    ensures LastOn(mem, n, k).Some? && LastOn(mem, n, k).value.sequence >= mem[i].0
  {
    if mem[n - 1].1.key != k { LastOnIsLast(mem, n - 1, k, i); }
  }

  /** With increasing numbers, the newest version at a snapshot is the last operation it covers. */
  lemma NewestIsLast(es: seq<Entry>, mem: seq<(nat, Operation)>, n: nat, k: Key, snapshot: nat)
    requires Tabulates(es, mem) && Increasing(mem) && Covers(mem, n, snapshot)
    ensures Newest(es, k, snapshot) == LastOn(mem, n, k)
  {
    LastIsSeen(es, mem, n, k, snapshot);
    NewestIsCovered(es, mem, n, k, snapshot);
    var newest, last := Newest(es, k, snapshot), LastOn(mem, n, k);
    if last.Some? {
      assert newest.Some? && newest.value.sequence == last.value.sequence;
      SameVersion(es, newest.value, last.value);
    }
  }

  ghost predicate Covers(mem: seq<(nat, Operation)>, n: nat, snapshot: nat) {
    n <= |mem| && forall i :: 0 <= i < |mem| ==> (mem[i].0 <= snapshot <==> i < n)
  }

  lemma LastIsSeen(es: seq<Entry>, mem: seq<(nat, Operation)>, n: nat, k: Key, snapshot: nat)
    requires Tabulates(es, mem) && Covers(mem, n, snapshot)
    ensures var last := LastOn(mem, n, k); last.Some? ==> last.value in es && Visible(last.value, k, snapshot)
  {
    var last := LastOn(mem, n, k);
    if last.Some? {
      var j :| 0 <= j < n && EntryAt(mem, j) == last.value && last.value.key == k;
      assert EntryAt(mem, j) in es;
    }
  }

  lemma NewestIsCovered(es: seq<Entry>, mem: seq<(nat, Operation)>, n: nat, k: Key, snapshot: nat)
    requires Tabulates(es, mem) && Increasing(mem) && Covers(mem, n, snapshot)
    ensures
      var newest, last := Newest(es, k, snapshot), LastOn(mem, n, k);
      newest.Some? ==> last.Some? && last.value.sequence >= newest.value.sequence
  {
    var newest := Newest(es, k, snapshot);
    if newest.Some? {
      var i :| 0 <= i < |mem| && EntryAt(mem, i) == newest.value;
      LastOnIsLast(mem, n, k, i);
    }
  }

  function Ops(mem: seq<(nat, Operation)>, n: nat): seq<Operation>
    requires n <= |mem|
  {
    if n == 0 then [] else Ops(mem, n - 1) + [mem[n - 1].1]
  }

  /** The last operation on a key decides what applying all of them gives. */
  lemma {:induction false} LastDecides(mem: seq<(nat, Operation)>, n: nat, k: Key)
    requires n <= |mem|
    ensures Memtable.Answer(LastOn(mem, n, k)) == Memtable.Applied(Memtable.Missing, Ops(mem, n), k)
  {
    if n > 0 {
      LastDecides(mem, n - 1, k);
      Memtable.AppliedPlus(Memtable.Missing, Ops(mem, n - 1), mem[n - 1].1, k);
    }
  }

  lemma {:induction false} OpsAre(mem: seq<(nat, Operation)>, longer: seq<(nat, Operation)>, n: nat)
    requires n <= |mem| && mem <= longer
    ensures Ops(longer, n) == Unnumbered(mem[..n])
  {
    if n > 0 {
      OpsAre(mem, longer, n - 1);
      assert mem[..n] == mem[..n - 1] + [mem[n - 1]];
    }
  }

  // ---------------------------------------------------------------------------------------
  // Over runs

  ghost predicate NumbersAbove(mem: seq<(nat, Operation)>, from: nat, bound: nat) {
    forall x :: from <= x < |mem| ==> mem[x].0 > bound
  }

  /** A step adds only numbers above the last published one. */
  lemma StepNumbersAbove(s: State, step: Step, s': State, from: nat, bound: nat)
    requires JobInv(s) && Next(s, step, s') && s.lastSequence >= bound && NumbersAbove(s.mem, from, bound)
    ensures s'.lastSequence >= bound && NumbersAbove(s'.mem, from, bound)
  {
    if step.InsertOne? {
      assert JobOk(s, s.phase[step.w]);
    }
  }

  /** What is in progress is numbered above the last published sequence, … */
  lemma InProgressAbove(s: State)
    requires JobInv(s) && MemInv(s)
    ensures NumbersAbove(s.mem, |Stored(s.groups)|, s.lastSequence)
  {
    var p := FrontPhase(s);
    if s.queue != [] && s.queue[0] in s.phase && HasJob(p) {
      assert JobOk(s, p);
    }
  }

  /** … and so is everything that comes later. */
  lemma {:induction false} LaterAbove(run: seq<State>, steps: seq<Step>, i: nat, j: nat)
    requires IsRun(run, steps) && i <= j < |run|
    ensures run[j].lastSequence >= run[i].lastSequence
    ensures NumbersAbove(run[j].mem, |Stored(run[i].groups)|, run[i].lastSequence)
    decreases j
  {
    if i == j {
      RunInv(run, steps, i);
      InProgressAbove(run[i]);
    } else {
      LaterAbove(run, steps, i, j - 1);
      RunInv(run, steps, j - 1);
      assert Next(run[j - 1], steps[j - 1], run[j - 1 + 1]);
      StepNumbersAbove(run[j - 1], steps[j - 1], run[j], |Stored(run[i].groups)|, run[i].lastSequence);
    }
  }

  /** At any moment and for ever after, a snapshot at the last published sequence covers exactly what
      the groups published by then have stored. */
  lemma SnapshotCovers(run: seq<State>, steps: seq<Step>, i: nat, j: nat)
    requires IsRun(run, steps) && i <= j < |run|
    ensures
      var stored, mem := Stored(run[i].groups), run[j].mem;
      && stored <= mem
      && forall x :: 0 <= x < |mem| ==> (mem[x].0 <= run[i].lastSequence <==> x < |stored|)
  {
    RunInv(run, steps, i);
    HistoryGrows(run, steps, i, j);
    LaterAbove(run, steps, i, j);
    var s := run[i];
    assert Stored(s.groups) <= s.mem <= run[j].mem;
    forall x | 0 <= x < |Stored(s.groups)| ensures run[j].mem[x].0 <= s.lastSequence {
      assert s.groups[..|s.groups|] == s.groups;
      StoredIsBounded(s, |s.groups|, x);
      assert run[j].mem[x] == Stored(s.groups)[x];
    }
  }

  /** Reads see acknowledged writes, all of them, in order, and nothing else: a reader with the last
      published sequence number of any moment finds, then and at any later time, what applying the
      batches acknowledged by then gives. Groups under way, later groups and failed writes do not show. */
  lemma ReadsSeeAcknowledged(run: seq<State>, steps: seq<Step>, i: nat, j: nat, es: seq<Entry>, k: Key)
    requires IsRun(run, steps) && i <= j < |run| && Tabulates(es, run[j].mem)
    ensures Memtable.Answer(Newest(es, k, run[i].lastSequence))
         == Memtable.Applied(Memtable.Missing, Committed(run[i].groups, run[i].batch), k)
  {
    var s, mem := run[i], run[j].mem;
    var n := |Stored(s.groups)|;
    SnapshotCovers(run, steps, i, j);
    NumbersIncrease(run, steps, j);
    NewestIsLast(es, mem, n, k, s.lastSequence);
    LastDecides(mem, n, k);
    OpsAre(Stored(s.groups), mem, n);
    assert Stored(s.groups)[..n] == Stored(s.groups);
    RunInv(run, steps, i);
    StoredIsCommitted(s, |s.groups|);
    assert s.groups[..|s.groups|] == s.groups;
  }

  // ---------------------------------------------------------------------------------------
  // From the bytes of the batches to the answers of lookups

  lemma {:induction false} EntriesOfAre(ops: seq<Operation>, base: nat, i: nat)
    requires i < |ops|
    ensures |Memtable.EntriesOf(ops, base)| == |ops|
    ensures Memtable.EntriesOf(ops, base)[i] == Memtable.EntryOf(base + i, ops[i])
  {
    var n := |ops| - 1;
    if n > 0 {
      EntriesOfAre(ops[..n], base, if i < n then i else 0);
    } else {
      assert ops[..n] == [];
    }
  }

  /** A table that takes in a batch takes in the same numbered operations as the writer queue's memtable. */
  lemma LoadedTabulates(es: seq<Entry>, es': seq<Entry>, mem: seq<(nat, Operation)>, ops: seq<Operation>, base: nat)
    requires Tabulates(es, mem) && Sorted(es') && Memtable.Loaded(es, es', ops, base)
    ensures Tabulates(es', mem + Numbered(ops, base))
  {
    var all := mem + Numbered(ops, base);
    var added := Memtable.EntriesOf(ops, base);
    forall i | 0 <= i < |all| ensures EntryAt(all, i) in es' {
      if i < |mem| {
        assert EntryAt(all, i) == EntryAt(mem, i);
      } else {
        EntriesOfAre(ops, base, i - |mem|);
        assert EntryAt(all, i) == added[i - |mem|];
      }
    }
    forall e | e in es' ensures exists i :: 0 <= i < |all| && EntryAt(all, i) == e {
      if e in es {
        var i :| 0 <= i < |mem| && EntryAt(mem, i) == e;
        assert EntryAt(all, i) == e;
      } else {
        var i :| 0 <= i < |added| && added[i] == e;
        AddedIs(ops, base, i);
        assert EntryAt(all, |mem| + i) == e;
      }
    }
  }

  lemma AddedIs(ops: seq<Operation>, base: nat, i: nat)
    requires i < |Memtable.EntriesOf(ops, base)|
    ensures i < |ops| && Memtable.EntriesOf(ops, base)[i] == Memtable.EntryOf(base + i, ops[i])
  {
    if ops != [] {
      EntriesOfAre(ops, base, 0);
      EntriesOfAre(ops, base, i);
    }
  }

  /** Inserting the bytes of a group's batch into the memtable is storing its operations, numbered. */
  method StoreBatch(table: Memtable.MemTable, rep: Bytes, ghost mem: seq<(nat, Operation)>)
    requires table.Valid() && Tabulates(table.entries, mem) && Parsed(rep).Some?
    requires Memtable.AllEncodable(Parsed(rep).value.1, Parsed(rep).value.0)
    requires Memtable.Below(table.entries, Parsed(rep).value.0)
    modifies table
    ensures table.Valid() && Tabulates(table.entries, mem + Numbered(Parsed(rep).value.1, Parsed(rep).value.0))
  {
    ghost var es := table.entries;
    table.InsertBatch(rep);
    LoadedTabulates(es, table.entries, mem, Parsed(rep).value.1, Parsed(rep).value.0);
  }

  /** A lookup at the last published sequence number of any moment of a run, then or later. */
  method ReadAcknowledged(table: Memtable.MemTable, lookup: Memtable.LookupKey,
                          ghost run: seq<State>, ghost steps: seq<Step>, ghost i: nat, ghost j: nat)
    returns (found: Memtable.Found)
    requires table.Valid() && lookup.Valid() && IsRun(run, steps) && i <= j < |run|
    requires Tabulates(table.entries, run[j].mem) && lookup.snapshot == run[i].lastSequence
    ensures found == Memtable.Applied(Memtable.Missing, Committed(run[i].groups, run[i].batch), lookup.key)
  {
    found := table.Get(lookup);
    ReadsSeeAcknowledged(run, steps, i, j, table.entries, lookup.key);
  }

  /** Every operation of the run so far fits the encoding of the memtable. */
  ghost predicate FitsTable(mem: seq<(nat, Operation)>) {
    forall x :: 0 <= x < |mem| ==> Memtable.Encodable(EntryAt(mem, x))
  }

  /** The numbers of a table's entries are below the next one of the sequence it tabulates. */
  lemma NextIsAbove(es: seq<Entry>, mem: seq<(nat, Operation)>, mem': seq<(nat, Operation)>)
    requires Tabulates(es, mem) && Increasing(mem') && mem < mem'
    ensures Memtable.Below(es, mem'[|mem|].0)
  {
    forall e | e in es ensures e.sequence < mem'[|mem|].0 {
      var i :| 0 <= i < |mem| && EntryAt(mem, i) == e;
      assert mem[i] == mem'[i];
    }
  }

  /** The memtable of a run, built by carrying out its insertions one after the other: at every moment it is
      the table of what the run has stored. */
  method ReplayRun(run: seq<State>, steps: seq<Step>, j: nat) returns (table: Memtable.MemTable)
    requires IsRun(run, steps) && j < |run| && FitsTable(run[j].mem)
    ensures fresh(table) && table.Valid() && Tabulates(table.entries, run[j].mem)
  {
    table := new Memtable.MemTable();
    for i := 0 to j
      invariant fresh(table) && table.Valid() && Tabulates(table.entries, run[i].mem)
    {
      assert Next(run[i], steps[i], run[i + 1]);
      if steps[i].InsertOne? {
        var p := run[i].phase[steps[i].w];
        var op, number := p.job.ops[p.next], p.job.base + p.next;
        InsertionFits(run, steps, i, j, table.entries, number, op);
        ghost var es := table.entries;
        table.InsertOne(op, number);
        LoadedTabulates(es, table.entries, run[i].mem, [op], number);
        assert Numbered([op], number) == [(number, op)];
      }
    }
  }

  /** What the run inserts next can be inserted into the table. */
  lemma InsertionFits(run: seq<State>, steps: seq<Step>, i: nat, j: nat, es: seq<Entry>, number: nat, op: Operation)
    requires IsRun(run, steps) && i < j < |run| && FitsTable(run[j].mem) && Tabulates(es, run[i].mem)
    requires run[i + 1].mem == run[i].mem + [(number, op)]
    ensures Memtable.Encodable(Memtable.EntryOf(number, op)) && Memtable.Below(es, number)
  {
    var n := |run[i].mem|;
    HistoryGrows(run, steps, i + 1, j);
    NumbersIncrease(run, steps, i + 1);
    NextIsAbove(es, run[i].mem, run[i + 1].mem);
    assert run[j].mem[n] == run[i + 1].mem[n] == (number, op);
    assert EntryAt(run[j].mem, n) == Memtable.EntryOf(number, op);
  }

  /** Writers and readers together, with nothing taken for granted about the table: carrying out the insertions
      of a run up to any moment and looking a key up at the last published sequence number of that or an earlier
      moment gives what the batches acknowledged by the earlier one made. */
  method ReplayAndRead(run: seq<State>, steps: seq<Step>, i: nat, j: nat, lookup: Memtable.LookupKey)
    returns (found: Memtable.Found)
    requires IsRun(run, steps) && i <= j < |run| && FitsTable(run[j].mem)
    requires lookup.Valid() && lookup.snapshot == run[i].lastSequence
    ensures found == Memtable.Applied(Memtable.Missing, Committed(run[i].groups, run[i].batch), lookup.key)
  {
    var table := ReplayRun(run, steps, j);
    found := ReadAcknowledged(table, lookup, run, steps, i, j);
  }
}
