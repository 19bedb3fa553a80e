/** Recovery from the bytes on disk: the manifest and the log files, of which the manifest and the last log may be
    cut off after any byte of the record that was being written. */
module DiskRecovery {
  import opened Keys
  import opened Coding
  import opened History
  import opened Files
  import opened Builder
  import opened Lsm
  import opened LsmInvariant
  import opened LsmWrites
  import opened LsmRecover
  import opened LogRecovery
  import opened LsmCompact
  import opened Pick
  import opened Ranges
  import opened LsmRuns
  import opened ManifestFiles
  import VE = VersionEdits
  import WB = WriteBatches
  import LF = LogFormat
  import LogFiles

  function Meant(x: WB.BatchOp, mean: Meaning): Op {
    match x
    case PutOp(k, v) => Put(mean.rank(k), mean.text(v))
    case DeleteOp(k) => Delete(mean.rank(k))
  }

  function AllMeant(xs: seq<WB.BatchOp>, mean: Meaning): Log {
    seq(|xs|, i requires 0 <= i < |xs| => Meant(xs[i], mean))
  }

  // ------------------------------------------------------------ logs

  /** The record is the write batch b. */
  ghost predicate IsBatch(r: Bytes, b: Batch, mean: Meaning) {
    exists xs: seq<WB.BatchOp> :: WB.Holds(r, xs, b.start) && AllMeant(xs, mean) == b.ops
  }

  ghost predicate AreBatches(rs: seq<Bytes>, bs: seq<Batch>, mean: Meaning) {
    |rs| == |bs| && forall i :: 0 <= i < |rs| ==> IsBatch(rs[i], bs[i], mean)
  }

  /** SetContents and Iterate; a record too small for a header is no batch. */
  method ParseBatch(record: Bytes, mean: Meaning, ghost b: Batch) returns (r: Option<Batch>)
    ensures IsBatch(record, b, mean) ==> r == Some(b)
  {
    hide WB.OpsBytes, WB.OpOk, WB.CountOf, WB.SequenceOf;
    if |record| < WB.HEADER {
      return None;
    }
    ghost var xs: seq<WB.BatchOp> := [];
    if IsBatch(record, b, mean) {
      xs :| WB.Holds(record, xs, b.start) && AllMeant(xs, mean) == b.ops;
    }
    var batch := new WB.WriteBatch.Contents(record, xs);
    var ok, handled := batch.Iterate();
    r := if ok then Some(Batch(WB.SequenceOf(record), AllMeant(handled, mean))) else None;
  }

  /** The batches of a log, up to the first record that is none. */
  method ReadBatches(file: Bytes, crc: LF.Checksum, mean: Meaning, ghost rs: seq<Bytes>, ghost bs: seq<Batch>) returns (found: seq<Batch>)
    ensures file <= LF.LogBytes(crc, rs) && AreBatches(rs, bs, mean) ==> found == bs[..LogFiles.Complete(rs, |file|)]
  {
    hide LF.LogBytes, LogFiles.Complete, IsBatch;
    ghost var near := file <= LF.LogBytes(crc, rs) && AreBatches(rs, bs, mean);
    var records, reported := LogFiles.ReadLog(file, crc, true, rs);
    found := [];
    for i := 0 to |records|
      invariant near ==> found == bs[..i]
    {
      var b := ParseBatch(records[i], mean, if near then bs[i] else Batch(0, []));
      if b.None? {
        return;
      }
      found := found + [b.value];
    }
  }

  /** RecoverLogFile on a log cut off anywhere: tables of exactly the batches that are there whole. */
  method RecoverLog(file: Bytes, crc: LF.Checksum, mean: Meaning, full: seq<Entry> -> bool, sizeOf: seq<Entry> -> nat, next: nat, maxBefore: nat,
                    ghost rs: seq<Bytes>, ghost bs: seq<Batch>)
    returns (tables: seq<File>, maxSequence: nat, nextFile: nat)
    requires file <= LF.LogBytes(crc, rs) && AreBatches(rs, bs, mean) && (bs != [] ==> bs[0].start >= 1 && Contiguous(bs, bs[0].start - 1))
    ensures LogTables(tables, bs[..LogFiles.Complete(rs, |file|)], next)
    ensures maxSequence == Max(maxBefore, MaxSequence(bs[..LogFiles.Complete(rs, |file|)]))
    ensures next <= nextFile && forall f :: f in tables ==> f.number < nextFile
  {
    hide LF.LogBytes, LogFiles.Complete, IsBatch, LogTables, MaxSequence, Ops, Contiguous;
    var found := ReadBatches(file, crc, mean, rs, bs);
    FirstAreContiguous(bs, LogFiles.Complete(rs, |file|));
    tables, maxSequence, nextFile := RecoverLogFile(found, full, sizeOf, next, maxBefore);
  }

  lemma FirstAreContiguous(bs: seq<Batch>, c: nat)
    ensures 0 < c <= |bs| && bs[0].start >= 1 && Contiguous(bs, bs[0].start - 1) ==>
      bs[..c][0].start >= 1 && Contiguous(bs[..c], bs[..c][0].start - 1)
  {
    if c <= |bs| { assert forall i :: 0 <= i < c ==> bs[..c][..i] == bs[..i]; }
  }

  // ------------------------------------------------------------ the whole database

  /** The file is the log of the batches bs. */
  ghost predicate WholeLog(file: Bytes, crc: LF.Checksum, bs: seq<Batch>, mean: Meaning) {
    exists rs :: AreBatches(rs, bs, mean) && file == LF.LogBytes(crc, rs)
  }

  /** The file is that log with some of the bytes of one more record, for batch b. */
  ghost predicate CutLog(file: Bytes, crc: LF.Checksum, bs: seq<Batch>, b: Batch, mean: Meaning) {
    exists rs, r :: AreBatches(rs, bs, mean) && IsBatch(r, b, mean) && LF.LogBytes(crc, rs) <= file <= LF.LogBytes(crc, rs + [r])
  }

  /** The log files that recovery needs are as db has them; of the group in flight, while it is being logged, any
      part may be there. Recoveries that did not come to their end may have left empty logs, with later numbers. */
  ghost predicate LogsOnDisk(db: Db, logs: map<nat, Bytes>, crc: LF.Checksum, mean: Meaning) {
    db.logs.Keys <= logs.Keys && (forall n :: n in logs && n !in db.logs ==> n > db.mem && logs[n] == []) && db.mem in db.logs &&
    (db.imm.Some? ==> db.imm.value in db.logs && WholeLog(logs[db.imm.value], crc, db.logs[db.imm.value], mean)) &&
    if db.group.Some? && !db.group.value.logged then CutLog(logs[db.mem], crc, db.logs[db.mem], Batch(db.last + 1, db.group.value.ops), mean)
    else WholeLog(logs[db.mem], crc, db.logs[db.mem], mean)
  }

  /** Reading the file yields the batches of log n of db. */
  ghost predicate Yields(file: Bytes, crc: LF.Checksum, rs: seq<Bytes>, bs: seq<Batch>, found: seq<Batch>, mean: Meaning) {
    file <= LF.LogBytes(crc, rs) && AreBatches(rs, bs, mean) && (bs != [] ==> bs[0].start >= 1 && Contiguous(bs, bs[0].start - 1)) &&
    bs[..LogFiles.Complete(rs, |file|)] == found
  }

  lemma WholeYields(file: Bytes, crc: LF.Checksum, bs: seq<Batch>, h: Log, a: nat, b: nat, mean: Meaning) returns (rs: seq<Bytes>)
    requires WholeLog(file, crc, bs, mean) && LogHolds(bs, h, a, b)
    ensures Yields(file, crc, rs, bs, bs, mean)
  {
    hide LF.LogBytes, LogFiles.Complete, IsBatch, Ops;
    rs :| AreBatches(rs, bs, mean) && file == LF.LogBytes(crc, rs);
    LogFiles.WholeLogIsComplete(crc, rs);
    StartOfBatches(bs, a);
  }

  lemma StartOfBatches(bs: seq<Batch>, a: nat)
    requires Contiguous(bs, a)
    ensures bs != [] ==> bs[0].start == a + 1
  {
    if bs != [] { assert bs[..0] == [] && Ops(bs[..0]) == []; }
  }

  /** Of a log cut off in one more record, all or all but that record is read. */
  lemma CutIsOneOrNone(crc: LF.Checksum, rs: seq<Bytes>, r: Bytes, n: nat)
    requires |LF.LogBytes(crc, rs)| <= n
    ensures LogFiles.Complete(rs + [r], n) == |rs| || LogFiles.Complete(rs + [r], n) == |rs| + 1
  {
    hide LF.LogOf, LF.Layout;
    LF.LogFits(rs);
    assert (rs + [r])[..|rs|] == rs;
    assert LogFiles.Complete(rs, n) == |rs|;
  }

  lemma CutYields(file: Bytes, crc: LF.Checksum, bs: seq<Batch>, b: Batch, mean: Meaning) returns (rs: seq<Bytes>, found: seq<Batch>)
    requires CutLog(file, crc, bs, b, mean)
    requires (bs + [b])[0].start >= 1 && Contiguous(bs + [b], (bs + [b])[0].start - 1)
    ensures Yields(file, crc, rs, bs + [b], found, mean) && (found == bs || found == bs + [b])
  {
    hide LF.LogBytes, LogFiles.Complete, IsBatch, Contiguous;
    var r: Bytes;
    rs, r :| AreBatches(rs, bs, mean) && IsBatch(r, b, mean) && LF.LogBytes(crc, rs) <= file <= LF.LogBytes(crc, rs + [r]);
    CutIsOneOrNone(crc, rs, r, |file|);
    found := (bs + [b])[..LogFiles.Complete(rs + [r], |file|)];
    rs := rs + [r];
  }

  /** The log of the memtable, read back, is that of db or of db with the group logged. */
  lemma MemLogYields(db: Db, file: Bytes, crc: LF.Checksum, mean: Meaning) returns (db1: Db, rs: seq<Bytes>, bs: seq<Batch>)
    requires Invariant(db)
    requires if db.group.Some? && !db.group.value.logged then CutLog(file, crc, db.logs[db.mem], Batch(db.last + 1, db.group.value.ops), mean)
      else WholeLog(file, crc, db.logs[db.mem], mean)
    ensures db1 == db || Next(db, db1, LogGroup)
    ensures Invariant(db1) && SameButLog(db, db1) && Yields(file, crc, rs, bs, db1.logs[db.mem], mean)
  {
    hide Ops, TablesOk, DurableOk, MemTablesOk, LogNumbersOk, SnapshotsOk, JobOk, VersionNumbers, LogHolds, Contiguous,
      Yields, CutLog, WholeLog;
    db1 := db;
    if db.group.Some? && !db.group.value.logged {
      var after := LogGroupOp(db);
      assert Next(db, after, LogGroup);
      StepKeeps(db, after, LogGroup);
      var b := Batch(db.last + 1, db.group.value.ops);
      bs := db.logs[db.mem] + [b];
      LogStarts(after);
      assert bs == after.logs[db.mem];
      var found;
      rs, found := CutYields(file, crc, db.logs[db.mem], b, mean);
      if found == bs { db1 := after; }
    } else {
      bs := db.logs[db.mem];
      rs := WholeMemYields(db, file, crc, mean);
    }
  }

  ghost predicate SameButLog(db: Db, db1: Db) {
    db1.mem == db.mem && db1.imm == db.imm && db1.manifest == db.manifest && db1.logs.Keys == db.logs.Keys && db1.hist == db.hist &&
    db1.mem in db1.logs && (db.imm.Some? ==> db.imm.value in db.logs && db.imm.value in db1.logs && db1.logs[db.imm.value] == db.logs[db.imm.value])
  }

  lemma LogStarts(db: Db)
    requires Invariant(db)
    ensures var bs := db.logs[db.mem]; bs != [] ==> bs[0].start >= 1 && Contiguous(bs, bs[0].start - 1)
  {
    hide TablesOk, DurableOk, MemTablesOk, LogNumbersOk, SnapshotsOk, JobOk, VersionNumbers, Contiguous, Ops;
    StartOfBatches(db.logs[db.mem], db.tables[db.mem].after);
  }

  lemma WholeMemYields(db: Db, file: Bytes, crc: LF.Checksum, mean: Meaning) returns (rs: seq<Bytes>)
    requires Invariant(db) && WholeLog(file, crc, db.logs[db.mem], mean)
    ensures Yields(file, crc, rs, db.logs[db.mem], db.logs[db.mem], mean)
  {
    hide TablesOk, DurableOk, MemTablesOk, LogNumbersOk, SnapshotsOk, JobOk, VersionNumbers, WholeLog, Yields, LogHolds;
    rs := WholeYields(file, crc, db.logs[db.mem], db.hist + Logged(db), db.tables[db.mem].after, |db.hist + Logged(db)|, mean);
  }

  // ------------------------------------------------------------ which logs, and their tables

  method Smallest(s: set<nat>) returns (n: nat)
    requires s != {}
    ensures n in s && forall m :: m in s ==> n <= m
  {
    n :| n in s;
    var rest := s - {n};
    while rest != {}
      invariant n in s && rest <= s && forall m :: m in s && m !in rest ==> n <= m
      decreases rest
    {
      var m :| m in rest;
      if m < n {
        n := m;
      }
      rest := rest - {m};
    }
  }

  /** The logs to recover, oldest first. */
  method LogsToRecover(numbers: set<nat>, minLog: nat) returns (ns: seq<nat>)
    ensures forall n :: n in ns <==> n in numbers && n >= minLog
    ensures forall i, j :: 0 <= i < j < |ns| ==> ns[i] < ns[j]
  {
    var rest := set n | n in numbers && n >= minLog;
    ns := [];
    while rest != {}
      invariant forall n :: (n in numbers && n >= minLog) <==> n in ns || n in rest
      invariant forall i, j :: 0 <= i < j < |ns| ==> ns[i] < ns[j]
      invariant forall n, m :: n in ns && m in rest ==> n < m
      decreases rest
    {
      var n := Smallest(rest);
      forall i | 0 <= i < |ns| ensures ns[i] < n { assert ns[i] in ns; }
      ns := ns + [n];
      rest := rest - {n};
    }
  }

  /** Tables numbered from a later number on are also numbered from an earlier one on. */
  lemma LaterTables(fs: seq<File>, bs: seq<Batch>, later: nat, next: nat)
    requires LogTables(fs, bs, later) && next <= later
    ensures LogTables(fs, bs, next)
  {
    hide Placed, Ops, MemOk;
  }

  /** The tables after i of the logs ns. */
  ghost predicate TablesSoFar(db: Db, ns: seq<nat>, i: nat, imm: seq<File>, mem: seq<File>, next: nat)
    requires forall n :: n in ns ==> n in db.logs
  {
    match |ns|
    case 1 => imm == [] && if i == 0 then mem == [] else LogTables(mem, db.logs[ns[0]], next)
    case 2 =>
      (if i == 0 then imm == [] else LogTables(imm, db.logs[ns[0]], next)) &&
      (if i < 2 then mem == [] else LogTables(mem, db.logs[ns[1]], if imm == [] then next else imm[|imm| - 1].number + 1))
    case _ => false
  }

  lemma OneMoreLog(db: Db, ns: seq<nat>, i: nat, imm: seq<File>, mem: seq<File>, next: nat, t: seq<File>, start: nat)
    requires (forall n :: n in ns ==> n in db.logs) && i < |ns| && TablesSoFar(db, ns, i, imm, mem, next)
    requires next <= start && (forall f :: f in imm + mem ==> f.number < start) && LogTables(t, db.logs[ns[i]], start)
    ensures if |ns| == 2 && i == 0 then TablesSoFar(db, ns, 1, t, mem, next) && t + mem == imm + mem + t
      else TablesSoFar(db, ns, i + 1, imm, t, next) && imm + t == imm + mem + t
  {
    hide LogTables;
    LaterTables(t, db.logs[ns[i]], start, next);
    if |ns| == 2 && i == 1 && imm != [] {
      var last := imm[|imm| - 1];
      assert last in imm + mem;
      LaterTables(t, db.logs[ns[i]], start, last.number + 1);
    }
  }

  lemma MoreRecovered(db: Db, ns: seq<nat>, i: nat, before: nat, after: nat)
    requires db.manifest != [] && (forall n :: n in ns ==> n in db.logs) && i < |ns|
    requires Max(LastEdit(db.manifest).lastSequence, before) == RecoveredLast(db, ns[..i]) && after == Max(before, MaxSequence(db.logs[ns[i]]))
    ensures Max(LastEdit(db.manifest).lastSequence, after) == RecoveredLast(db, ns[..i + 1])
  {
    assert ns[..i + 1][..i] == ns[..i] && ns[..i + 1][i] == ns[i];
  }

  lemma ManifestOf(db: Db)
    requires Invariant(db)
    ensures db.manifest != [] && Replay(db.manifest) == db.version
  {
    hide TablesOk, MemTablesOk, LogNumbersOk, SnapshotsOk, JobOk, VersionNumbers, LogsOk, AddsEachOnce, Replay;
  }

  lemma ImmLogYields(db: Db, logs: map<nat, Bytes>, crc: LF.Checksum, mean: Meaning) returns (rs: seq<Bytes>)
    requires Invariant(db) && LogsOnDisk(db, logs, crc, mean)
    ensures db.imm.Some? ==> Yields(logs[db.imm.value], crc, rs, db.logs[db.imm.value], db.logs[db.imm.value], mean)
  {
    hide TablesOk, DurableOk, MemTablesOk, LogNumbersOk, SnapshotsOk, JobOk, VersionNumbers, WholeLog, CutLog, Yields, LogHolds;
    rs := [];
    if db.imm.Some? {
      rs := WholeYields(logs[db.imm.value], crc, db.logs[db.imm.value], db.hist, db.tables[db.imm.value].after, db.tables[db.mem].after, mean);
    }
  }

  /** An ascending list that has those of base, and otherwise only later numbers, starts with base. */
  lemma ComesFirst(base: seq<nat>, ns: seq<nat>)
    requires 1 <= |base| <= 2 && (|base| == 2 ==> base[0] < base[1]) && forall i, j :: 0 <= i < j < |ns| ==> ns[i] < ns[j]
    requires (forall n :: n in base ==> n in ns) && forall n :: n in ns ==> n in base || n > base[|base| - 1]
    ensures base <= ns && forall i :: |base| <= i < |ns| ==> ns[i] !in base
  {
    var a :| 0 <= a < |ns| && ns[a] == base[0] by { assert base[0] in ns; }
    assert ns[0] in ns;
    if |base| == 2 {
      var b :| 0 <= b < |ns| && ns[b] == base[1] by { assert base[1] in ns; }
      assert ns[1] in ns;
    }
  }

  /** The logs of the memtables are what recovery needs. */
  lemma MemLogsAreRecoverable(db: Db, base: seq<nat>)
    requires Invariant(db) && base == if db.imm.Some? then [db.imm.value, db.mem] else [db.mem]
    ensures RecoverableLogs(db, base) && (forall n :: n in base ==> n in db.logs) && (|base| == 2 ==> base[0] < base[1])
  {
    hide TablesOk, MemTablesOk, LogHolds, SnapshotsOk, JobOk, AddsEachOnce, AddedOk, Replay, VersionNumbers;
  }

  /** The logs found are those of the memtables, and after them the empty ones. */
  lemma MemLogsComeFirst(db: Db, numbers: set<nat>, ns: seq<nat>) returns (base: seq<nat>)
    requires Invariant(db) && db.logs.Keys <= numbers && forall n :: n in numbers && n !in db.logs ==> n > db.mem
    requires (forall n :: n in ns <==> n in numbers && n >= LastLog(db)) && forall i, j :: 0 <= i < j < |ns| ==> ns[i] < ns[j]
    ensures RecoverableLogs(db, base) && base == if db.imm.Some? then [db.imm.value, db.mem] else [db.mem]
    ensures base <= ns && (forall n :: n in base ==> n in db.logs) && forall i :: |base| <= i < |ns| ==> ns[i] !in db.logs
  {
    hide Invariant;
    base := if db.imm.Some? then [db.imm.value, db.mem] else [db.mem];
    MemLogsAreRecoverable(db, base);
    forall n | n in ns ensures n in base || n > base[|base| - 1] {
      if n in db.logs { assert n in base; }
    }
    ComesFirst(base, ns);
    forall i | |base| <= i < |ns| ensures ns[i] !in db.logs { assert ns[i] in ns; }
  }

  /** An empty log yields nothing. */
  lemma EmptyYields(crc: LF.Checksum, mean: Meaning)
    ensures Yields([], crc, [], [], [], mean)
  {
    hide LF.LogBytes, LogFiles.Complete;
  }

  lemma NothingInLog(t: seq<File>, next: nat, before: nat)
    requires LogTables(t, [], next)
    ensures t == [] && Max(before, MaxSequence([])) == before
  {
  }

  lemma NothingRecovered(db: Db, ns: seq<nat>, next: nat)
    requires db.manifest != [] && (forall n :: n in ns ==> n in db.logs) && 1 <= |ns| <= 2
    ensures TablesSoFar(db, ns, 0, [], [], next) && RecoveredLast(db, ns[..0]) == Max(LastEdit(db.manifest).lastSequence, 0)
  {
  }

  lemma TablesAre(db: Db, ns: seq<nat>, imm: seq<File>, mem: seq<File>, next: nat)
    requires (forall n :: n in ns ==> n in db.logs) && 1 <= |ns| <= 2 && TablesSoFar(db, ns, |ns|, imm, mem, next)
    ensures TablesOfLogs(db, ns, imm, mem, next)
  {
    hide LogTables;
  }

  lemma FilesAreThere(db: Db)
    requires Invariant(db)
    ensures db.manifest != [] && VersionNumbers(Replay(db.manifest)) <= db.files
    ensures db.last == |db.hist| && db.mem in db.tables && db.mem in db.logs
  {
    hide TablesOk, MemTablesOk, LogNumbersOk, SnapshotsOk, JobOk, VersionNumbers, LogsOk, AddsEachOnce, AddedOk, Replay;
  }

  lemma RecoveredByStep(db: Db, db': Db, ns: seq<nat>, imm: seq<File>, mem: seq<File>, next: nat, log: nat)
    requires Invariant(db) && RecoverableLogs(db, ns) && 1 <= |ns| <= 2 && forall n :: n in ns ==> n in db.logs
    requires db.manifest != [] && next == LastEdit(db.manifest).nextFile + 1 <= log && (forall n :: n in ns ==> n < log)
    requires (forall f :: f in imm + mem ==> f.number < log) && TablesSoFar(db, ns, |ns|, imm, mem, next)
    requires db' == Recovered(db, db.hist + Logged(db), RecoveredLast(db, ns), imm + mem, log)
    ensures Next(db, db', CrashAndRecover(imm, mem, log)) && db'.last == RecoveredLast(db, ns)
  {
    hide Invariant, Replay, RecoveredLast, RecoverableLogs, TablesSoFar, TablesOfLogs, VersionNumbers, EditVersion, Snapshot;
    FilesAreThere(db);
    TablesAre(db, ns, imm, mem, next);
    assert Recovers(db, db', imm, mem, log);
  }

  lemma HistoryAfter(db: Db, db1: Db, db2: Db, imm: seq<File>, mem: seq<File>, log: nat)
    requires Invariant(db) && (db1 == db || Next(db, db1, LogGroup)) && Invariant(db1) && Next(db1, db2, CrashAndRecover(imm, mem, log))
    ensures Invariant(db2) && (ReadsOk(db) ==> ReadsOk(db2))
    ensures db2.hist == db.hist || (db.group.Some? && db2.hist == db.hist + db.group.value.ops)
  {
    hide Invariant, ReadsRight, ReadersRight, Recovers;
    if db1 != db { StepKeeps(db, db1, LogGroup); }
    RecoveryKeeps(db1, db2, imm, mem, log);
  }

  method RecoverOne(file: Bytes, crc: LF.Checksum, mean: Meaning, full: seq<Entry> -> bool, sizeOf: seq<Entry> -> nat, next: nat, maxBefore: nat,
                    ghost rs: seq<Bytes>, ghost bs: seq<Batch>, ghost found: seq<Batch>)
    returns (tables: seq<File>, maxSequence: nat, nextFile: nat)
    requires Yields(file, crc, rs, bs, found, mean)
    ensures LogTables(tables, found, next) && maxSequence == Max(maxBefore, MaxSequence(found))
    ensures next <= nextFile && forall f :: f in tables ==> f.number < nextFile
  {
    hide LF.LogBytes, LogFiles.Complete, AreBatches, LogTables, MaxSequence, Contiguous;
    tables, maxSequence, nextFile := RecoverLog(file, crc, mean, full, sizeOf, next, maxBefore, rs, bs);
  }

  /** The loop over the logs in DBImpl::Recover; base are those of the memtables, and the others are empty. */
  method RecoverLogs(ns: seq<nat>, logs: map<nat, Bytes>, crc: LF.Checksum, mean: Meaning, full: seq<Entry> -> bool, sizeOf: seq<Entry> -> nat, next: nat,
                     ghost base: seq<nat>, ghost db: Db, ghost immRs: seq<Bytes>, ghost memRs: seq<Bytes>, ghost memBs: seq<Batch>)
    returns (tables: seq<File>, maxSequence: nat, nextFile: nat, ghost imm: seq<File>, ghost mem: seq<File>)
    requires db.manifest != [] && (forall n :: n in base ==> n in db.logs) && (forall n :: n in ns ==> n in logs) && db.mem in logs && db.mem in db.logs
    requires base <= ns && base == (if db.imm.Some? then [db.imm.value, db.mem] else [db.mem]) && (db.imm.Some? ==> db.imm.value in logs)
    requires Yields(logs[db.mem], crc, memRs, memBs, db.logs[db.mem], mean)
    requires db.imm.Some? ==> Yields(logs[db.imm.value], crc, immRs, db.logs[db.imm.value], db.logs[db.imm.value], mean)
    requires forall i :: |base| <= i < |ns| ==> logs[ns[i]] == []
    ensures tables == imm + mem && TablesSoFar(db, base, |base|, imm, mem, next) && next <= nextFile
    ensures (forall f :: f in tables ==> f.number < nextFile) && forall n :: n in ns ==> n < nextFile
    ensures Max(LastEdit(db.manifest).lastSequence, maxSequence) == RecoveredLast(db, base)
  {
    hide LogTables, RecoveredLast, MaxSequence, Yields, TablesSoFar;
    tables, nextFile, maxSequence, imm, mem := [], next, 0, [], [];
    NothingRecovered(db, base, next);
    EmptyYields(crc, mean);
    ghost var k := 0;
    for i := 0 to |ns|
      invariant k == if i < |base| then i else |base|
      invariant next <= nextFile && (forall f :: f in tables ==> f.number < nextFile) && (forall j :: 0 <= j < i ==> ns[j] < nextFile)
      invariant tables == imm + mem && TablesSoFar(db, base, k, imm, mem, next)
      invariant Max(LastEdit(db.manifest).lastSequence, maxSequence) == RecoveredLast(db, base[..k])
    {
      ghost var inBase, isMem := i < |base|, ns[i] == db.mem;
      ghost var before := maxSequence;
      assert inBase ==> ns[i] == base[i];
      var t, afterTables;
      t, maxSequence, afterTables := RecoverOne(logs[ns[i]], crc, mean, full, sizeOf, nextFile, maxSequence,
        if !inBase then [] else if isMem then memRs else immRs, if !inBase then [] else if isMem then memBs else db.logs[ns[i]],
        if inBase then db.logs[ns[i]] else []);
      if inBase {
        OneMoreLog(db, base, i, imm, mem, next, t, nextFile);
        MoreRecovered(db, base, i, before, maxSequence);
        if |base| == 2 && i == 0 { imm := t; } else { mem := t; }
        k := k + 1;
      } else {
        NothingInLog(t, nextFile, before);
      }
      tables := tables + t;
      nextFile := Max(afterTables, ns[i] + 1);
    }
    assert base[..|base|] == base;
  }

  /** Of a manifest that ends in the middle of the record LogAndApply is writing, all or all but that record is read. */
  ghost predicate ManifestOnDisk(file: Bytes, crc: LF.Checksum, rs: seq<Bytes>, xs: seq<VE.Edit>, db: Db, later: Db, mean: Meaning,
                                 table: nat -> seq<Entry>, comparator: Bytes) {
    AreEdits(rs, xs, later.manifest, mean, table, comparator) && 0 < |db.manifest| <= |rs| && HasCounters(xs[|db.manifest| - 1]) &&
    HasCounters(xs[|rs| - 1]) && LF.LogBytes(crc, rs[..|db.manifest|]) <= file <= LF.LogBytes(crc, rs)
  }

  /** LogAndApply is at work on the step from db to later, or nothing is. */
  ghost predicate Applying(db: Db, later: Db, step: Step) {
    later == db || (Next(db, later, step) && (step.Flush? || step.TrivialMove? || step.InstallCompaction?))
  }

  /** Such a step appends one edit, and leaves history and logs alone. */
  lemma OneEditMore(db: Db, later: Db, step: Step)
    requires Invariant(db) && Applying(db, later, step)
    ensures Invariant(later) && later.hist == db.hist && later.group == db.group && later.last == db.last
    ensures later == db || (|later.manifest| == |db.manifest| + 1 && later.manifest[..|db.manifest|] == db.manifest)
    ensures later.logs == db.logs && later.mem == db.mem && (later.imm == db.imm || later.imm.None?)
  {
    hide Invariant, EditVersion, OutputsOf, InputsOk, NoGap, FlushLevelOk, TableOf, InstallEdit, MoveEdit, MakeEdit, ReadsOk, SafeToInstall;
    if later != db { StepKeeps(db, later, step); }
  }

  /** What is read of the manifest is that of db, or that of later. */
  lemma ManifestOfOne(file: Bytes, crc: LF.Checksum, rs: seq<Bytes>, xs: seq<VE.Edit>, db: Db, later: Db, step: Step, mean: Meaning,
                      table: nat -> seq<Entry>, comparator: Bytes) returns (base: Db, n: nat)
    requires Invariant(db) && Applying(db, later, step) && ManifestOnDisk(file, crc, rs, xs, db, later, mean, table, comparator)
    ensures base == db || base == later
    ensures IsManifest(file, crc, rs, xs, later.manifest, n, mean, table, comparator)
    ensures 0 < n <= |later.manifest| && later.manifest[..n] == base.manifest
    ensures Invariant(base) && base.hist == db.hist && base.group == db.group
  {
    hide Invariant, Applying, LF.LogBytes, LogFiles.Complete, AreEdits;
    OneEditMore(db, later, step);
    EditCounts(rs, xs, later.manifest, mean, table, comparator);
    var k := |db.manifest|;
    n := LogFiles.Complete(rs, |file|);
    if later == db {
      assert rs[..k] == rs && later.manifest[..k] == db.manifest;
      LogFiles.WholeLogIsComplete(crc, rs);
      base := db;
    } else {
      assert rs == rs[..k] + [rs[k]];
      CutIsOneOrNone(crc, rs[..k], rs[k], |file|);
      assert later.manifest[..k + 1] == later.manifest;
      base := if n == k then db else later;
    }
  }

  lemma EditCounts(rs: seq<Bytes>, xs: seq<VE.Edit>, m: Manifest, mean: Meaning, table: nat -> seq<Entry>, comparator: Bytes)
    requires AreEdits(rs, xs, m, mean, table, comparator)
    ensures |rs| == |xs| == |m|
  {
    hide IsEdit;
  }

  /** The logs stay as they were while a version is installed. */
  lemma LogsOfOne(db: Db, later: Db, step: Step, base: Db, logs: map<nat, Bytes>, crc: LF.Checksum, mean: Meaning)
    requires Invariant(db) && Applying(db, later, step) && (base == db || base == later) && LogsOnDisk(db, logs, crc, mean)
    ensures LogsOnDisk(base, logs, crc, mean)
  {
    hide Invariant, Applying, WholeLog, CutLog;
    OneEditMore(db, later, step);
  }

  /** These tables, sequence number and log are those of a recovery of the state machine from base, or from base with its
      group logged. */
  ghost predicate RecoveredFrom(base: Db, db1: Db, db2: Db, tables: seq<File>, last: nat, log: nat) {
    (db1 == base || Next(base, db1, LogGroup)) && db2.last == last &&
    exists imm, mem :: tables == imm + mem && Next(db1, db2, CrashAndRecover(imm, mem, log))
  }

  /** Every acknowledged write is there, and the group in flight is there whole or not at all. */
  ghost predicate KeepsHistory(db: Db, db2: Db) {
    db2.hist == db.hist || (db.group.Some? && db2.hist == db.hist + db.group.value.ops)
  }

  /** DBImpl::Recover and VersionSet::Recover, from the bytes of the manifest and of the logs, after a crash that may have
      come in the middle of a record of either. What they find is what the state machine recovers from a state base, which
      is db or, once its edit is whole, the state LogAndApply was going to, or from base with its group logged: the version,
      the tables, the last sequence number; and so the invariant holds, every acknowledged write is there, and the group in
      flight is there whole or not at all. */
  method RecoverFromDisk(manifest: Bytes, logs: map<nat, Bytes>, crc: LF.Checksum, mean: Meaning, table: nat -> seq<Entry>, comparator: Bytes,
                         full: seq<Entry> -> bool, sizeOf: seq<Entry> -> nat,
                         ghost db: Db, ghost later: Db, ghost step: Step, ghost rs: seq<Bytes>, ghost xs: seq<VE.Edit>)
    returns (ok: bool, v: Version, tables: seq<File>, last: nat, log: nat, ghost base: Db, ghost db1: Db, ghost db2: Db)
    requires Invariant(db) && Applying(db, later, step) && ManifestOnDisk(manifest, crc, rs, xs, db, later, mean, table, comparator)
    requires LogsOnDisk(db, logs, crc, mean)
    ensures (base == db || base == later) && ok && v == base.version && RecoveredFrom(base, db1, db2, tables, last, log)
    ensures Invariant(db2) && (ReadsOk(base) ==> ReadsOk(db2)) && KeepsHistory(db, db2)
  {
    hide Invariant, IsManifest, WholeLog, CutLog, Next, LogTables, RecoveredLast, MaxSequence, Replay, RecoverableLogs, ReadsRight, ReadersRight,
         Yields, TablesSoFar, Recovered, ManifestOnDisk, Applying, LogsOnDisk, RecoveredFrom;
    ghost var n;
    base, n := ManifestOfOne(manifest, crc, rs, xs, db, later, step, mean, table, comparator);
    LogsOfOne(db, later, step, base, logs, crc, mean);
    ManifestOf(base);
    var c, pointers;
    ok, v, c, pointers := RecoverManifest(manifest, crc, mean, table, comparator, seq(NUM_LEVELS, _ => []), rs, xs, later.manifest, n);
    LastOfPrefix(later.manifest, n);
    tables, last, log, db1, db2 := RecoverTables(c, logs, crc, mean, full, sizeOf, base);
  }

  lemma LastOfPrefix(m: Manifest, n: nat)
    requires 0 < n <= |m|
    ensures m[..n] != [] && LastEdit(m[..n]) == m[n - 1]
  {
  }

  /** The rest of DBImpl::Recover, with the counters of the manifest. */
  method RecoverTables(c: Counters, logs: map<nat, Bytes>, crc: LF.Checksum, mean: Meaning, full: seq<Entry> -> bool, sizeOf: seq<Entry> -> nat,
                       ghost db: Db)
    returns (tables: seq<File>, last: nat, log: nat, ghost db1: Db, ghost db2: Db)
    requires Invariant(db) && LogsOnDisk(db, logs, crc, mean) && db.manifest != [] && c == CountersOf(LastEdit(db.manifest))
    ensures RecoveredFrom(db, db1, db2, tables, last, log)
    ensures Invariant(db2) && (ReadsOk(db) ==> ReadsOk(db2)) && KeepsHistory(db, db2)
  {
    hide Invariant, WholeLog, CutLog, Next, LogTables, RecoveredLast, MaxSequence, Replay, RecoverableLogs, ReadsRight, ReadersRight,
         Yields, TablesSoFar, Recovered;
    ghost var memRs, memBs, immRs: seq<Bytes>;
    db1, memRs, memBs := MemLogYields(db, logs[db.mem], crc, mean);
    immRs := ImmLogYields(db, logs, crc, mean);
    var ns: seq<nat> := LogsToRecover(logs.Keys, c.logNumber.value);
    ghost var base := MemLogsComeFirst(db1, logs.Keys, ns);
    var next := c.nextFile.value + 1;
    var maxSequence; ghost var imm, mem;
    tables, maxSequence, log, imm, mem := RecoverLogs(ns, logs, crc, mean, full, sizeOf, next, base, db1, immRs, memRs, memBs);
    last := Max(c.lastSequence.value, maxSequence);
    db2 := Recovered(db1, db1.hist + Logged(db1), last, tables, log);
    RecoveredByStep(db1, db2, base, imm, mem, next, log);
    HistoryAfter(db, db1, db2, imm, mem, log);
  }
}
