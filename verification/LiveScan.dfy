/** Iterators that live on: what an iterator has captured goes on showing the history of its sequence number
    while later steps insert, switch, flush, compact and remove files. */
module LiveScan {
  import opened Keys
  import opened History
  import opened Files
  import opened Ranges
  import opened Builder
  import opened Reads
  import opened Pick
  import opened Merging
  import opened Lsm
  import opened LsmInvariant
  import opened LsmWrites
  import opened LsmRuns
  import opened DbIter
  import opened Scan

  // ------------------------------------------------------------ what a read has captured stays in layers

  /** The captured memtables and version hold successive stretches of the history, up to number hi. */
  ghost predicate ReaderHolds(r: Reader, tables: map<nat, MemTable>, h: Log, hi: nat) {
    r.mem in tables && (r.imm.Some? ==> r.imm.value in tables && r.imm.value < r.mem) &&
    Layered(tables, r.mem, r.imm, r.version, h) && forall e :: e in Held(tables, r.mem, r.imm, r.version) ==> e.key.sn <= hi
  }

  ghost predicate ReadersHold(db: Db) {
    forall r :: r in db.readers ==> r.mem <= db.mem && ReaderHolds(r, db.tables, Full(db), db.last + Inserted(db))
  }

  /** The memtables there are stay as they are, and the history only grows. */
  ghost predicate Undisturbed(db: Db, db': Db) {
    (forall k :: k in db.tables ==> k in db'.tables && db'.tables[k] == db.tables[k]) && db.mem <= db'.mem &&
    Full(db) <= Full(db') && db.last + Inserted(db) <= db'.last + Inserted(db') && forall r :: r in db'.readers ==> r in db.readers
  }

  lemma LongerHistory(c: set<Entry>, h: Log, h': Log)
    requires AllWrittenBy(c, h) && h <= h'
    ensures AllWrittenBy(c, h')
  {
    forall e | e in c ensures WrittenBy(e, h') { assert WrittenBy(e, h); }
  }

  lemma UndisturbedHold(db: Db, db': Db)
    requires ReadersHold(db) && Undisturbed(db, db')
    ensures ReadersHold(db')
  {
    hide VersionOk, AllSorted, Sorted, NewerThanAll, AllWrittenBy, VersionEntries;
    forall r | r in db'.readers ensures r.mem <= db'.mem && ReaderHolds(r, db'.tables, Full(db'), db'.last + Inserted(db')) {
      assert ReaderHolds(r, db.tables, Full(db), db.last + Inserted(db));
      LongerHistory(Held(db.tables, r.mem, r.imm, r.version), Full(db), Full(db'));
    }
  }

  /** Only an insertion changes a memtable, only a new read captures anything, and a crash ends all reads. */
  lemma StepsDisturbLittle(db: Db, db': Db, step: Step)
    requires Invariant(db) && Next(db, db', step) && !step.InsertNext? && !step.BeginRead? && !step.CrashAndRecover?
    ensures Undisturbed(db, db')
  {
    hide TablesOk, DurableOk, LogsOk, LogNumbersOk, JobOk, SnapshotsOk, MemTablesOk, LiveFiles, EditVersion, OutputsOf, InputsOk, NoGap,
      FlushLevelOk, VersionNumbers, Recovers, TableOf, MakeEdit, InstallEdit, MoveEdit, RemoveObsoleteOp, Insert, EntryOf;
    if step.RemoveObsolete? { RemovalDisturbsNothing(db, db'); }
  }

  lemma RemovalDisturbsNothing(db: Db, db': Db)
    requires db' == RemoveObsoleteOp(db)
    ensures db'.tables == db.tables && db'.mem == db.mem && db'.readers == db.readers && db'.hist == db.hist && db'.group == db.group && db'.last == db.last
  {
    hide LiveFiles;
  }

  /** The memtable a read has captured may gain a newer write. */
  lemma InsertionHolds(r: Reader, tables: map<nat, MemTable>, mem: nat, h: Log, hi: nat)
    requires ReaderHolds(r, tables, h, hi) && r.mem <= mem && mem in tables && MemOk(tables[mem], h, hi) && hi < |h|
    ensures ReaderHolds(r, tables[mem := tables[mem].(entries := Insert(tables[mem].entries, EntryOf(h, hi + 1)))], h, hi + 1)
  {
    hide VersionOk, AllSorted, Sorted, VersionEntries, Insert, EntryOf, MemOk, WrittenBy;
    InsertKeepsMem(tables[mem], h, hi);
    EntryNumber(h, hi + 1);
    InsertIsInOrder(tables[mem], h, hi);
    if r.mem == mem {
      var tables', e := tables[mem := tables[mem].(entries := Insert(tables[mem].entries, EntryOf(h, hi + 1)))], EntryOf(h, hi + 1);
      assert Held(tables', r.mem, r.imm, r.version) == Held(tables, r.mem, r.imm, r.version) + {e};
    }
  }

  lemma InsertIsInOrder(t: MemTable, h: Log, hi: nat)
    requires MemOk(t, h, hi) && hi < |h|
    ensures Sorted(Insert(t.entries, EntryOf(h, hi + 1)))
  {
    hide Sorted, Insert, EntryOf;
    InsertKeepsMem(t, h, hi);
  }

  /** No number above the last one inserted is in use. */
  lemma NumbersAreReached(db: Db)
    requires Invariant(db)
    ensures forall e :: e in All(db) ==> e.key.sn <= db.last + Inserted(db)
  {
    hide DurableOk, LogsOk, LogNumbersOk, JobOk, SnapshotsOk, LiveFiles, VersionOk, AllSorted, NumbersOk, Sorted, WrittenBy, VersionEntries;
  }

  lemma CapturedHolds(db: Db, s: nat)
    requires Invariant(db)
    ensures ReaderHolds(Reader(s, db.mem, db.imm, db.version), db.tables, Full(db), db.last + Inserted(db))
  {
    hide DurableOk, LogsOk, LogNumbersOk, JobOk, SnapshotsOk, LiveFiles, TablesOk, MemTablesOk, Layered, Held, All;
    DatabaseIsLayered(db);
    NumbersAreReached(db);
  }

  lemma StepKeepsHeld(db: Db, db': Db, step: Step)
    requires Invariant(db) && ReadersHold(db) && Next(db, db', step)
    ensures ReadersHold(db')
  {
    hide Invariant, ReaderHolds, Recovers, EditVersion, OutputsOf, InputsOk, NoGap, FlushLevelOk, LiveFiles, MemOk, EntryOf, Undisturbed;
    if step.BeginRead? {
      CapturedHolds(db, step.snapshot);
    } else if step.InsertNext? {
      InsertStepKeepsHeld(db, db');
    } else if step.CrashAndRecover? {
      NoReaders(db, db', step.immTables, step.memTables, step.log);
    } else {
      StepsDisturbLittle(db, db', step);
      UndisturbedHold(db, db');
    }
  }

  lemma NoReaders(db: Db, db': Db, imm: seq<File>, mem: seq<File>, log: nat)
    requires Recovers(db, db', imm, mem, log)
    ensures db'.readers == []
  {
    hide Replay, TablesOfLogs, RecoverableLogs, VersionNumbers, RecoveredLast;
  }

  lemma InsertStepKeepsHeld(db: Db, db': Db)
    requires Invariant(db) && ReadersHold(db) && Next(db, db', InsertNext)
    ensures ReadersHold(db')
  {
    hide ReaderHolds, TablesOk, DurableOk, LogsOk, LogNumbersOk, JobOk, SnapshotsOk, LiveFiles, MemOk, EntryOf, Insert;
    assert Full(db') == Full(db);
    forall r | r in db'.readers ensures ReaderHolds(r, db'.tables, Full(db'), db'.last + Inserted(db')) {
      InsertionHolds(r, db.tables, db.mem, Full(db), db.last + Inserted(db));
    }
  }

  lemma {:induction false} RunKeepsHeld(states: seq<Db>, steps: seq<Step>, n: nat)
    requires Run(states, steps) && n < |states|
    ensures ReadersHold(states[n])
  {
    hide Invariant, Next, ReaderHolds;
    if n > 0 {
      RunKeepsHeld(states, steps, n - 1);
      RunKeepsInvariant(states, steps, n - 1);
      StepKeepsHeld(states[n - 1], states[n], steps[n - 1]);
    }
  }

  // ------------------------------------------------------------ what its iterator shows

  /** The rows of an iterator over what r has captured. */
  ghost function RowsBy(r: Reader, tables: map<nat, MemTable>): seq<Row> {
    RowsAt(tables, r.mem, r.imm, r.version, r.snapshot)
  }

  /** Whatever was inserted, flushed, compacted and removed since: an iterator goes on showing what the history
      held at its sequence number, and its tables are still there. */
  lemma RunIteratorsSeeHistory(states: seq<Db>, steps: seq<Step>, n: nat, r: Reader)
    requires Run(states, steps) && ClosedRun(states, steps) && n < |states| && r in states[n].readers
    ensures var db := states[n];
      r.snapshot <= |db.hist| && VersionNumbers(r.version) <= db.files && Layered(db.tables, r.mem, r.imm, r.version, Full(db)) &&
      ShowsHistory(RowsBy(r, db.tables), db.hist, r.snapshot)
  {
    hide Next, Init, ClosedRun, Get, Lookup, RowsAt, Layered, VersionNumbers, Invariant;
    var db := states[n];
    RunKeepsHeld(states, steps, n);
    RunReadersSeeHistory(states, steps, n, r, 0);
    RowsAreGets(db.tables, r.mem, r.imm, r.version, Full(db), r.snapshot);
    forall u ensures GetBy(r, db.tables, u) == Lookup(db.hist, u, r.snapshot) { RunReadersSeeHistory(states, steps, n, r, u); }
  }

  lemma {:induction false} SameRows(a: seq<Row>, b: seq<Row>)
    requires forall i, j :: 0 <= i < j < |a| ==> a[i].user < a[j].user
    requires forall i, j :: 0 <= i < j < |b| ==> b[i].user < b[j].user
    requires forall x :: x in a <==> x in b
    ensures a == b
  {
    assert (a != [] ==> a[0] in b) && (b != [] ==> b[0] in a);
    if a != [] {
      var i :| 0 <= i < |b| && b[i] == a[0];
      var j :| 0 <= j < |a| && a[j] == b[0];
      assert a[0] == b[0];
      RestOfRows(a);
      RestOfRows(b);
      SameRows(a[1..], b[1..]);
      assert a == [a[0]] + a[1..] && b == [b[0]] + b[1..];
    }
  }

  lemma RestOfRows(a: seq<Row>)
    requires a != [] && forall i, j :: 0 <= i < j < |a| ==> a[i].user < a[j].user
    ensures forall x :: x in a[1..] <==> x in a && x != a[0]
  {
    forall x | x in a && x != a[0] ensures x in a[1..] {
      var i :| 0 <= i < |a| && a[i] == x;
      assert a[1..][i - 1] == x;
    }
    forall x | x in a[1..] ensures x in a && x != a[0] {
      var i :| 0 <= i < |a| - 1 && a[1..][i] == x;
      assert a[i + 1] == x;
    }
  }

  /** An iterator has the same rows at any two points of its life. */
  lemma IteratorsAreStable(states: seq<Db>, steps: seq<Step>, a: nat, b: nat, r: Reader)
    requires Run(states, steps) && ClosedRun(states, steps) && a <= b < |states| && r in states[a].readers && r in states[b].readers
    ensures RowsBy(r, states[a].tables) == RowsBy(r, states[b].tables)
  {
    hide Run, ClosedRun, RowsBy, Lookup, Layered, VersionNumbers;
    RunIteratorsSeeHistory(states, steps, a, r);
    RunIteratorsSeeHistory(states, steps, b, r);
    HistoryGrows(states, steps, a, b);
    var h, h' := states[a].hist, states[b].hist;
    assert h + h'[|h|..] == h';
    forall x: Row ensures x in RowsBy(r, states[a].tables) <==> x in RowsBy(r, states[b].tables) {
      LookupIgnoresLaterWrites(h, h'[|h|..], x.user, r.snapshot);
      assert x == Row(x.user, x.value);
    }
    SameRows(RowsBy(r, states[a].tables), RowsBy(r, states[b].tables));
  }

  // ------------------------------------------------------------ the iterator itself

  /** DBImpl::NewIterator: DBIter over the merged children. */
  method NewIterator(tables: map<nat, MemTable>, mem: nat, imm: Option<nat>, v: Version, s: nat, ghost h: Log) returns (it: DbIterator)
    requires Layered(tables, mem, imm, v, h)
    ensures fresh(it) && fresh(it.iter) && it.Valid() && !it.valid && it.sequence == s
    ensures AllRows(it.Internal(), s) == RowsAt(tables, mem, imm, v, s)
  {
    hide Layered, ChildRuns, Merged, AllRows, Mergeable;
    RowsAreGets(tables, mem, imm, v, h, s);
    var internal := new MergingIterator(ChildRuns(tables, mem, imm, v));
    it := new DbIterator(internal, s);
  }

  /** All rows from the first to the last. */
  method Walk(it: DbIterator) returns (rows: seq<Row>)
    requires it.Valid()
    modifies it, it.iter
    ensures it.Valid() && rows == old(AllRows(it.Internal(), it.sequence))
  {
    hide Merged, AllRows, Cut, MergingIterator.Valid;
    ghost var all := AllRows(it.Internal(), it.sequence);
    rows := [];
    it.SeekToFirst();
    while it.valid
      invariant it.Valid() && AllRows(it.Internal(), it.sequence) == all
      invariant it.Position() == |rows| <= |all| && rows == all[..|rows|]
      decreases |all| - |rows|
    {
      it.ShowsRow();
      rows := rows + [Row(it.Key(), it.Value())];
      it.Next();
    }
  }

  /** An iterator opened by r and walked in state n yields what the history held at its sequence number. */
  method WalkHistory(r: Reader, db: Db, ghost states: seq<Db>, ghost steps: seq<Step>, ghost n: nat) returns (rows: seq<Row>)
    requires Run(states, steps) && ClosedRun(states, steps) && n < |states| && db == states[n] && r in db.readers
    ensures r.snapshot <= |db.hist| && ShowsHistory(rows, db.hist, r.snapshot)
  {
    hide Run, ClosedRun, Layered, RowsAt, ShowsHistory;
    RunIteratorsSeeHistory(states, steps, n, r);
    var it := NewIterator(db.tables, r.mem, r.imm, r.version, r.snapshot, Full(db));
    rows := Walk(it);
  }
}
