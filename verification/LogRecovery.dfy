/** Recovering one log: its records go to memtables, which become level-0 tables; and that recovery is
    possible from wherever a run is cut short. */
module LogRecovery {
  import opened Keys
  import opened History
  import opened Files
  import opened Builder
  import opened Lsm
  import opened LsmInvariant
  import opened LsmWrites
  import opened LsmRecover

  /** b's operations stand in h at their sequence numbers. */
  ghost predicate BatchIn(b: Batch, h: Log) {
    b.start >= 1 && b.start - 1 + |b.ops| <= |h| && forall j :: 0 <= j < |b.ops| ==> h[b.start - 1 + j] == b.ops[j]
  }

  /** WriteBatchInternal::InsertInto. */
  method InsertBatch(mem: seq<Entry>, b: Batch, ghost after: nat, ghost h: Log) returns (r: seq<Entry>)
    requires BatchIn(b, h) && MemOk(MemTable(mem, after), h, b.start - 1)
    ensures MemOk(MemTable(r, after), h, b.start - 1 + |b.ops|)
  {
    hide MemOk, Insert;
    r := mem;
    for j := 0 to |b.ops|
      invariant MemOk(MemTable(r, after), h, b.start - 1 + j)
    {
      InsertKeepsMem(MemTable(r, after), h, b.start - 1 + j);
      assert h[b.start + j - 1] == b.ops[j];
      r := Insert(r, EntryAt(b.ops[j], b.start + j));
    }
  }

  /** The i-th record of a log holds the operations after those of the records before it. */
  lemma RecordInLog(bs: seq<Batch>, a: nat, i: nat)
    requires Contiguous(bs, a) && i < |bs|
    ensures BatchIn(bs[i], Placed(a, Ops(bs))) && bs[i].start == a + |Ops(bs[..i])| + 1
    ensures |Ops(bs[..i + 1])| == |Ops(bs[..i])| + |bs[i].ops| && MaxSequence(bs[..i + 1]) == Max(MaxSequence(bs[..i]), bs[i].start + |bs[i].ops| - 1)
  {
    assert bs[..i + 1][..i] == bs[..i];
    OpsOfFirst(bs, i + 1);
    assert Ops(bs[..i + 1]) == Ops(bs[..i]) + bs[i].ops;
  }

  lemma {:induction false} OpsOfFirst(bs: seq<Batch>, i: nat)
    requires i <= |bs|
    ensures Ops(bs[..i]) <= Ops(bs)
    decreases |bs|
  {
    if i < |bs| {
      OpsOfFirst(bs[..|bs| - 1], i);
      assert bs[..|bs| - 1][..i] == bs[..i];
    } else {
      assert bs[..i] == bs;
    }
  }

  /** One more table after those that have been written. */
  lemma OneMoreTable(fs: seq<File>, f: File, h: Log, a: nat, m: nat, b: nat, next: nat, number: nat)
    requires RecoveredTables(fs, h, a, m, next) && m < b <= |h| && MemOk(MemTable(f.entries, m), h, b)
    requires f.entries != [] && f == TableOf(number, f.size, f.entries) && number >= next && forall g :: g in fs ==> g.number < number
    ensures RecoveredTables(fs + [f], h, a, b, next)
  {
    hide MemOk;
    assert [f][1..] == [] && RecoveredTables([], h, b, b, f.number + 1);
    JoinTables(fs, [f], h, a, m, b, next);
  }

  /** DBImpl::RecoverLogFile. A memtable that full says is full becomes a table at once, the last one at
      the end; file numbers are taken from next on. */
  method RecoverLogFile(bs: seq<Batch>, full: seq<Entry> -> bool, sizeOf: seq<Entry> -> nat, next: nat, maxBefore: nat)
    returns (tables: seq<File>, maxSequence: nat, nextFile: nat)
    requires bs != [] ==> bs[0].start >= 1 && Contiguous(bs, bs[0].start - 1)
    ensures LogTables(tables, bs, next) && maxSequence == Max(maxBefore, MaxSequence(bs))
    ensures next <= nextFile && forall f :: f in tables ==> f.number < nextFile
  {
    hide MemOk, RecoveredTables, Placed, Contiguous, EntryOf, Ops, MaxSequence;
    tables, maxSequence, nextFile := [], maxBefore, next;
    NoRecords(bs);
    if |bs| == 0 {
      return;
    }
    ghost var a := bs[0].start - 1;
    ghost var h, m := Placed(a, Ops(bs)), a;
    var mem: Option<seq<Entry>> := None;
    StartOfLog(h, a, next);
    for i := 0 to |bs|
      invariant next <= nextFile && (forall f :: f in tables ==> f.number < nextFile)
      invariant maxSequence == Max(maxBefore, MaxSequence(bs[..i])) && a <= m <= a + |Ops(bs[..i])|
      invariant RecoveredTables(tables, h, a, m, next)
      invariant MemOk(MemTable(if mem.Some? then mem.value else [], m), h, a + |Ops(bs[..i])|)
    {
      RecordInLog(bs, a, i);
      var inserted := InsertBatch(if mem.Some? then mem.value else [], bs[i], m, h);
      mem := Some(inserted);
      var lastSeq := bs[i].start + |bs[i].ops| - 1;
      if lastSeq > maxSequence {
        maxSequence := lastSeq;
      }
      if full(inserted) {
        tables, nextFile := WriteTable(tables, inserted, sizeOf, nextFile, h, a, m, a + |Ops(bs[..i + 1])|, next);
        m := a + |Ops(bs[..i + 1])|;
        NothingInMem(h, m);
        mem := None;
      }
    }
    assert bs[..|bs|] == bs;
    if mem.Some? {
      tables, nextFile := WriteTable(tables, mem.value, sizeOf, nextFile, h, a, m, a + |Ops(bs)|, next);
    } else {
      NothingMissing(h, m, a + |Ops(bs)|);
    }
  }

  /** WriteLevel0Table: an empty memtable only uses up a file number. */
  method WriteTable(tables: seq<File>, mem: seq<Entry>, sizeOf: seq<Entry> -> nat, number: nat,
                    ghost h: Log, ghost a: nat, ghost m: nat, ghost b: nat, ghost next: nat) returns (r: seq<File>, nextFile: nat)
    requires RecoveredTables(tables, h, a, m, next) && MemOk(MemTable(mem, m), h, b) && number >= next
    requires forall f :: f in tables ==> f.number < number
    ensures RecoveredTables(r, h, a, b, next) && nextFile == number + 1 && forall f :: f in r ==> f.number < nextFile
  {
    hide MemOk, RecoveredTables;
    EmptyMem(mem, h, m, b);
    r, nextFile := tables, number + 1;
    if mem != [] {
      var f := TableOf(number, sizeOf(mem), mem);
      OneMoreTable(tables, f, h, a, m, b, next, number);
      r := tables + [f];
    }
  }

  lemma EmptyMem(mem: seq<Entry>, h: Log, m: nat, b: nat)
    requires MemOk(MemTable(mem, m), h, b)
    ensures m <= b <= |h| && (mem == [] <==> m == b)
  {
    if m < b { assert EntryOf(h, b) in mem; }
    if mem != [] { assert mem[0] in mem; }
  }

  lemma NothingInMem(h: Log, m: nat)
    requires m <= |h|
    ensures MemOk(MemTable([], m), h, m)
  {
  }

  lemma NothingMissing(h: Log, m: nat, b: nat)
    requires MemOk(MemTable([], m), h, b)
    ensures m == b
  {
    EmptyMem([], h, m, b);
  }

  lemma StartOfLog(h: Log, a: nat, next: nat)
    requires a <= |h|
    ensures RecoveredTables([], h, a, a, next) && MemOk(MemTable([], a), h, a)
  {
  }

  lemma NoRecords(bs: seq<Batch>)
    ensures Ops(bs[..0]) == [] && MaxSequence(bs[..0]) == 0 && (bs == [] ==> MaxSequence(bs) == 0)
    ensures bs != [] && bs[0].start >= 1 ==> bs[0].start - 1 <= |Placed(bs[0].start - 1, Ops(bs))| == bs[0].start - 1 + |Ops(bs)|
  {
  }

  // ------------------------------------------------------------ recovery never gets stuck

  lemma {:induction false} MemOfStretch(h: Log, a: nat, b: nat) returns (es: seq<Entry>)
    requires a <= b <= |h|
    ensures MemOk(MemTable(es, a), h, b)
    decreases b
  {
    hide MemOk;
    if a == b {
      NothingInMem(h, a);
      es := [];
    } else {
      es := MemOfStretch(h, a, b - 1);
      InsertKeepsMem(MemTable(es, a), h, b - 1);
      es := Insert(es, EntryOf(h, b));
    }
  }

  /** Any log has tables, all of them numbered n. */
  lemma TablesOfLog(bs: seq<Batch>, h: Log, a: nat, b: nat, n: nat) returns (fs: seq<File>)
    requires LogHolds(bs, h, a, b)
    ensures LogTables(fs, bs, n) && |fs| <= 1 && forall f :: f in fs ==> f.number == n
  {
    hide MemOk;
    fs := [];
    NoRecords(bs);
    if bs != [] {
      var p := Placed(a, Ops(bs));
      assert bs[..0] == [] && bs[0].start == a + 1;
      StartOfLog(p, a, n);
      if Ops(bs) != [] {
        var es := MemOfStretch(p, a, |p|);
        EmptyMem(es, p, a, |p|);
        var f := TableOf(n, 0, es);
        OneMoreTable([], f, p, a, a, |p|, n, n);
        assert [] + [f] == [f];
        fs := [f];
      }
    }
  }

  /** From any state a run reaches, crashing and recovering is possible. */
  lemma RecoveryIsPossible(db: Db) returns (db': Db, immTables: seq<File>, memTables: seq<File>, log: nat)
    requires Invariant(db)
    ensures Next(db, db', CrashAndRecover(immTables, memTables, log))
  {
    hide Replay, VersionNumbers, TablesOk, AddsEachOnce, AddedOk, MemTablesOk, JobOk, SnapshotsOk, LogHolds, LogTables, Recovered;
    var next := LastEdit(db.manifest).nextFile + 1;
    log := db.nextFile + next + 2;
    immTables := [];
    var ns := [db.mem];
    if db.imm.Some? {
      ns := [db.imm.value, db.mem];
      immTables := TablesOfLog(db.logs[db.imm.value], db.hist, db.tables[db.imm.value].after, db.tables[db.mem].after, next);
    }
    memTables := TablesOfLog(db.logs[db.mem], db.hist + Logged(db), db.tables[db.mem].after, |db.hist + Logged(db)|,
                             if immTables == [] then next else next + 1);
    assert RecoverableLogs(db, ns);
    assert TablesOfLogs(db, ns, immTables, memTables, next);
    db' := Recovered(db, db.hist + Logged(db), RecoveredLast(db, ns), immTables + memTables, log);
  }
}
