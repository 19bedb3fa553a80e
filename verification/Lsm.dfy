/** The database as a state machine: group writes, memtable switches, flushes, compactions that
    run while flushes commit, snapshots, reads in progress, file removal, crash and recovery. */
module Lsm {
  import opened Keys
  import opened History
  import opened Files
  import opened Ranges
  import opened Builder
  import opened Reads
  import opened Pick
  import opened CompactionWork

  /** One log record: a write batch with the sequence number of its first operation. */
  datatype Batch = Batch(start: nat, ops: Log)

  /** A memtable and the sequence number after which its writes begin. */
  datatype MemTable = MemTable(entries: seq<Entry>, after: nat)

  /** The group the front writer is committing: logged, then inserted one operation at a time. */
  datatype Group = Group(ops: Log, logged: bool, inserted: nat)

  /** A compaction in progress: its inputs, smallest_snapshot, input version, pending outputs. */
  datatype Job = Job(level: nat, in0: seq<File>, in1: seq<File>, snap: nat, version: Version, pending: set<nat>)

  /** A Get or an iterator that has captured its memtables and version and released the mutex. */
  datatype Reader = Reader(snapshot: nat, mem: nat, imm: Option<nat>, version: Version)

  /** mem and imm name memtables by the number of the log that backs them. hist is what has been
      acknowledged; last is last_sequence_. */
  datatype Db = Db(hist: Log, last: nat,
                   tables: map<nat, MemTable>, mem: nat, imm: Option<nat>, logs: map<nat, seq<Batch>>,
                   version: Version, logNumber: nat, nextFile: nat, manifest: Manifest,
                   snapshots: seq<nat>, group: Option<Group>, job: Option<Job>, readers: seq<Reader>,
                   files: set<nat>)

  // ------------------------------------------------------------ derived quantities

  function GroupOps(db: Db): Log {
    if db.group.Some? then db.group.value.ops else []
  }

  function Inserted(db: Db): nat {
    if db.group.Some? then db.group.value.inserted else 0
  }

  function Logged(db: Db): Log {
    if db.group.Some? && db.group.value.logged then db.group.value.ops else []
  }

  /** The history with the group in flight. */
  function Full(db: Db): Log {
    db.hist + GroupOps(db)
  }

  function Entries(tables: map<nat, MemTable>, id: Option<nat>): seq<Entry> {
    if id.Some? && id.value in tables then tables[id.value].entries else []
  }

  ghost function All(db: Db): set<Entry> {
    Contents(Entries(db.tables, Some(db.mem)), Entries(db.tables, db.imm), db.version)
  }

  /** Where the unflushed part of the history begins. */
  function FlushedTo(db: Db): nat
    requires db.mem in db.tables && (db.imm.Some? ==> db.imm.value in db.tables)
  {
    if db.imm.Some? then db.tables[db.imm.value].after else db.tables[db.mem].after
  }

  /** The oldest sequence number a read may still use. */
  function MinLive(db: Db): nat {
    if db.snapshots == [] then db.last else db.snapshots[0]
  }

  /** The operations of consecutive log records. */
  function Ops(bs: seq<Batch>): Log {
    if bs == [] then [] else Ops(bs[..|bs| - 1]) + bs[|bs| - 1].ops
  }

  /** Records follow each other without a gap, the first starting right after sequence number a. */
  ghost predicate Contiguous(bs: seq<Batch>, a: nat) {
    forall i :: 0 <= i < |bs| ==> bs[i].start == a + |Ops(bs[..i])| + 1
  }

  function LastEdit(m: Manifest): LoggedEdit
    requires m != []
  {
    m[|m| - 1]
  }

  // ------------------------------------------------------------ steps

  datatype Step =
    | BeginGroup(ops: Log)
    | LogGroup
    | InsertNext
    | CommitGroup
    | SwitchMemTable
    | Flush(level: nat, size: nat, last: nat)
    | TakeSnapshot
    | ReleaseSnapshot(index: nat)
    | StartCompaction(c: nat, in0: seq<File>, in1: seq<File>)
    | TrivialMove(c: nat, file: File, marks: Marks)
    | OpenOutput
    | InstallCompaction(input: seq<Entry>, outs: seq<File>, marks: Marks)
    | BeginRead(snapshot: nat)
    | EndRead(index: nat)
    | RemoveObsolete
    | CrashAndRecover(immTables: seq<File>, memTables: seq<File>, log: nat)

  /** The counters that LogAndApply finds when it is called; it then releases the mutex to write the manifest. */
  datatype Marks = Marks(nextFile: nat, last: nat)

  function Now(db: Db): Marks {
    Marks(db.nextFile, db.last)
  }

  /** They may be as old as a moment since which nothing was flushed and no table got a number; a memtable may have been
      switched since, also during a trivial move. */
  ghost predicate MarksOk(db: Db, m: Marks) {
    db.mem in db.tables && (db.imm.Some? ==> db.imm.value in db.tables) && FlushedTo(db) <= m.last <= db.last && m.nextFile <= db.nextFile &&
    (forall k :: k in VersionNumbers(db.version) ==> k < m.nextFile) &&
    (db.job.Some? ==> forall k :: k in db.job.value.pending ==> k < m.nextFile)
  }

  /** An edit that changes the given levels, with the counters. */
  function MakeEdit(levels: LevelEdits, logNumber: nat, m: Marks): LoggedEdit {
    LoggedEdit(levels, logNumber, m.nextFile, m.last)
  }

  function OneLevel(l: nat, e: LevelEdit): LevelEdits
  {
    seq(NUM_LEVELS, k => if k == l then e else NoChange)
  }

  function TwoLevels(c: nat, a: LevelEdit, b: LevelEdit): LevelEdits
  {
    seq(NUM_LEVELS, k => if k == c then a else if k == c + 1 then b else NoChange)
  }

  /** VersionSet::LogAndApply: the edit is logged, then installed. */
  function LogAndApply(db: Db, e: LoggedEdit): Db
  {
    db.(version := EditVersion(db.version, e), manifest := db.manifest + [e], logNumber := e.logNumber)
  }

  function BeginGroupOp(db: Db, ops: Log): Db {
    db.(group := Some(Group(ops, false, 0)))
  }

  function LogGroupOp(db: Db): Db
    requires db.group.Some? && db.mem in db.logs
  {
    var g := db.group.value;
    db.(group := Some(g.(logged := true)),
        logs := db.logs[db.mem := db.logs[db.mem] + [Batch(db.last + 1, g.ops)]])
  }

  function InsertNextOp(db: Db): Db
    requires db.group.Some? && db.mem in db.tables && Inserted(db) < |GroupOps(db)| && db.last == |db.hist|
  {
    var g, t := db.group.value, db.tables[db.mem];
    var e := EntryOf(Full(db), db.last + g.inserted + 1);
    db.(group := Some(g.(inserted := g.inserted + 1)),
        tables := db.tables[db.mem := t.(entries := Insert(t.entries, e))])
  }

  function CommitGroupOp(db: Db): Db
    requires db.group.Some?
  {
    db.(hist := db.hist + db.group.value.ops, last := db.last + |db.group.value.ops|, group := None)
  }

  function SwitchOp(db: Db): Db {
    db.(imm := Some(db.mem), mem := db.nextFile, nextFile := db.nextFile + 1,
        tables := db.tables[db.nextFile := MemTable([], db.last)], logs := db.logs[db.nextFile := []])
  }

  /** The table that BuildTable writes from a nonempty memtable. */
  function TableOf(number: nat, size: nat, es: seq<Entry>): File
    requires es != []
  {
    File(number, size, es[0].key, es[|es| - 1].key, es)
  }

  /** CompactMemTable: the new table, if any, goes to the chosen level; older logs are let go. */
  function FlushOp(db: Db, level: nat, size: nat, last: nat): Db
    requires db.imm.Some?
  {
    LogAndApply(db, FlushEdit(db, level, size, last)).(imm := None, nextFile := db.nextFile + 1, files := db.files + {db.nextFile})
  }

  function FlushEdit(db: Db, level: nat, size: nat, last: nat): LoggedEdit {
    var es := Entries(db.tables, db.imm);
    var added := if es == [] then [] else [TableOf(db.nextFile, size, es)];
    MakeEdit(OneLevel(level, LevelEdit({}, added)), db.mem, Marks(db.nextFile + 1, last))
  }

  function MoveEdit(db: Db, c: nat, f: File, m: Marks): LoggedEdit {
    MakeEdit(TwoLevels(c, LevelEdit({f.number}, []), LevelEdit({}, [f])), db.logNumber, m)
  }

  function InstallEdit(db: Db, j: Job, outs: seq<File>, m: Marks): LoggedEdit {
    MakeEdit(TwoLevels(j.level, LevelEdit(Numbers(j.in0), []), LevelEdit(Numbers(j.in1), outs)), db.logNumber, m)
  }

  ghost function InputEntries(j: Job): set<Entry> {
    EntriesOf(j.in0 + j.in1)
  }

  ghost function JobBase(j: Job): UserKey -> bool
  {
    BaseOf(j.version, j.level)
  }

  function FileEntries(fs: seq<File>): seq<seq<Entry>> {
    seq(|fs|, i requires 0 <= i < |fs| => fs[i].entries)
  }

  /** What DoCompactionWork leaves behind: tables of pending numbers holding the kept entries. */
  ghost predicate OutputsOf(j: Job, input: seq<Entry>, outs: seq<File>)
  {
    Sorted(input) && SetOf(input) == InputEntries(j) &&
    Flatten(FileEntries(outs)) == Survivors(input, SetOf(input), j.snap, JobBase(j)) &&
    (forall o :: o in outs ==> o.entries != [] && o == TableOf(o.number, o.size, o.entries)) &&
    EachNumberOnce(outs) && Numbers(outs) <= j.pending
  }

  /** Numbers of every file some live version, reader or compaction still needs. */
  ghost function LiveFiles(v: Version, readers: seq<Reader>, job: Option<Job>): set<nat> {
    VersionNumbers(v) + (set r, n | r in readers && n in VersionNumbers(r.version) :: n) +
    (if job.Some? then VersionNumbers(job.value.version) + job.value.pending else {})
  }

  function VersionNumbers(v: Version): set<nat> {
    set l, f | 0 <= l < |v| && f in v[l] :: f.number
  }

  /** RemoveObsoleteFiles. */
  ghost function RemoveObsoleteOp(db: Db): Db {
    db.(files := db.files * LiveFiles(db.version, db.readers, db.job), logs := map n | n in db.logs && n >= db.logNumber :: db.logs[n])
  }

  // ------------------------------------------------------------ recovery

  /** The highest sequence number in a log, or zero. */
  function MaxSequence(bs: seq<Batch>): nat {
    if bs == [] then 0
    else
      var b, m := bs[|bs| - 1], MaxSequence(bs[..|bs| - 1]);
      if b.start + |b.ops| > m + 1 then b.start + |b.ops| - 1 else m
  }

  /** The tables RecoverLogFile writes for the operations (a, b] of h: cut wherever the memtable
      filled up, in level 0, with increasing numbers from next on. */
  ghost predicate RecoveredTables(fs: seq<File>, h: Log, a: nat, b: nat, next: nat)
    decreases |fs|
  {
    if fs == [] then a == b
    else
      fs[0].entries != [] && fs[0].number >= next && fs[0] == TableOf(fs[0].number, fs[0].size, fs[0].entries) &&
      exists m :: a < m <= b <= |h| && MemOk(MemTable(fs[0].entries, a), h, m) &&
        RecoveredTables(fs[1..], h, m, b, fs[0].number + 1)
  }

  /** A log's operations placed at their sequence numbers; what comes before a is not looked at. */
  function Placed(a: nat, ops: Log): Log {
    seq(a, _ => Delete(0)) + ops
  }

  /** The tables made from one log; its first record says where the sequence numbers start. */
  ghost predicate LogTables(fs: seq<File>, bs: seq<Batch>, next: nat) {
    if bs == [] then fs == []
    else
      bs[0].start >= 1 &&
      var a := bs[0].start - 1;
      RecoveredTables(fs, Placed(a, Ops(bs)), a, a + |Ops(bs)|, next)
  }

  /** t holds exactly the writes after t.after up to hi. */
  ghost predicate MemOk(t: MemTable, h: Log, hi: nat) {
    t.after <= hi <= |h| && Sorted(t.entries) &&
    (forall e :: e in t.entries ==> t.after < e.key.sn <= hi && WrittenBy(e, h)) &&
    (forall i :: t.after < i <= hi ==> EntryOf(h, i) in t.entries)
  }

  /** The numbers of the logs recovery reads, oldest first. */
  ghost predicate RecoverableLogs(db: Db, ns: seq<nat>) {
    (forall n :: n in ns <==> n in db.logs && n >= LastLog(db)) &&
    forall i, j :: 0 <= i < j < |ns| ==> ns[i] < ns[j]
  }

  function LastLog(db: Db): nat {
    if db.manifest == [] then 0 else LastEdit(db.manifest).logNumber
  }

  function Max(a: nat, b: nat): nat {
    if a < b then b else a
  }

  /** The state DB::Open builds from the manifest and the logs alone: level-0 tables for what the
      logs hold, a new log, a new manifest that starts with a snapshot of the replayed version. */
  function Recovered(db: Db, hist: Log, last: nat, tables: seq<File>, log: nat): Db
    requires db.manifest != []
  {
    var v := Replay(db.manifest);
    var e := LastEdit(db.manifest);
    var edit := LoggedEdit(OneLevel(0, LevelEdit({}, tables)), log, log + 1, last);
    Db(hist, last, map[log := MemTable([], last)], log, None, db.logs[log := []],
       EditVersion(v, edit), log, log + 1,
       [Snapshot(v, e.logNumber, log + 1, e.lastSequence), edit],
       [], None, None, [], db.files + Numbers(tables))
  }

  // ------------------------------------------------------------ the step relation

  ghost predicate Next(db: Db, db': Db, step: Step) {
    db.last == |db.hist| && db.mem in db.tables && db.mem in db.logs &&
    match step
    case BeginGroup(ops) =>
      db.group.None? && db.last + |ops| < MAX_SEQUENCE && db' == BeginGroupOp(db, ops)
    case LogGroup =>
      db.group.Some? && !db.group.value.logged && db' == LogGroupOp(db)
    case InsertNext =>
      db.group.Some? && db.group.value.logged && Inserted(db) < |GroupOps(db)| && db' == InsertNextOp(db)
    case CommitGroup =>
      db.group.Some? && db.group.value.logged && Inserted(db) == |GroupOps(db)| && db' == CommitGroupOp(db)
    case SwitchMemTable =>
      db.imm.None? && db.group.None? && db' == SwitchOp(db)
    case Flush(level, size, last) =>
      db.imm.Some? && level < NUM_LEVELS && db.tables[db.mem].after <= last <= db.last &&
      (var es := Entries(db.tables, db.imm);
       es != [] ==> FlushLevelOk(db.version, es[0].key.user, es[|es| - 1].key.user, level)) &&
      db' == FlushOp(db, level, size, last)
    case TakeSnapshot =>
      db' == db.(snapshots := db.snapshots + [db.last])
    case ReleaseSnapshot(i) =>
      i < |db.snapshots| && db' == db.(snapshots := db.snapshots[..i] + db.snapshots[i + 1..])
    case StartCompaction(c, in0, in1) =>
      db.job.None? && db.imm.None? && InputsOk(db.version, c, in0, in1) && NoGap(in0 + in1) &&
      db' == db.(job := Some(Job(c, in0, in1, MinLive(db), db.version, {})))
    case TrivialMove(c, f, m) =>
      db.job.None? && MarksOk(db, m) && InputsOk(db.version, c, [f], []) &&
      db' == LogAndApply(db, MoveEdit(db, c, f, m))
    case OpenOutput =>
      db.job.Some? &&
      db' == db.(job := Some(db.job.value.(pending := db.job.value.pending + {db.nextFile})),
                 nextFile := db.nextFile + 1, files := db.files + {db.nextFile})
    case InstallCompaction(input, outs, m) =>
      db.job.Some? && MarksOk(db, m) && OutputsOf(db.job.value, input, outs) &&
      db' == LogAndApply(db, InstallEdit(db, db.job.value, outs, m)).(job := None)
    case BeginRead(s) =>
      (s == db.last || s in db.snapshots) &&
      db' == db.(readers := db.readers + [Reader(s, db.mem, db.imm, db.version)])
    case EndRead(i) =>
      i < |db.readers| && db' == db.(readers := db.readers[..i] + db.readers[i + 1..])
    case RemoveObsolete =>
      db' == RemoveObsoleteOp(db)
    case CrashAndRecover(immTables, memTables, log) =>
      Recovers(db, db', immTables, memTables, log)
  }

  /** The highest sequence number recovery finds in the manifest and the logs it reads. */
  function RecoveredLast(db: Db, ns: seq<nat>): nat
    requires db.manifest != [] && forall n :: n in ns ==> n in db.logs
  {
    if ns == [] then LastEdit(db.manifest).lastSequence
    else Max(RecoveredLast(db, ns[..|ns| - 1]), MaxSequence(db.logs[ns[|ns| - 1]]))
  }

  /** Recovery reads the surviving manifest and the logs it still needs, oldest first. Only the name
      it gives to what it finds, hist + Logged, is not read from disk. */
  ghost predicate Recovers(db: Db, db': Db, immTables: seq<File>, memTables: seq<File>, log: nat) {
    db.manifest != [] &&
    var next := LastEdit(db.manifest).nextFile + 1;
    VersionNumbers(Replay(db.manifest)) <= db.files &&
    (forall f :: f in immTables + memTables ==> f.number < log) && next <= log &&
    exists ns :: RecoverableLogs(db, ns) && (forall n :: n in ns ==> n < log) &&
      TablesOfLogs(db, ns, immTables, memTables, next) &&
      db' == Recovered(db, db.hist + Logged(db), RecoveredLast(db, ns), immTables + memTables, log)
  }

  /** One or two logs are left: the memtable's, and before it the immutable memtable's. */
  ghost predicate TablesOfLogs(db: Db, ns: seq<nat>, immTables: seq<File>, memTables: seq<File>, next: nat)
    requires forall n :: n in ns ==> n in db.logs
  {
    match |ns|
    case 1 => immTables == [] && LogTables(memTables, db.logs[ns[0]], next)
    case 2 =>
      LogTables(immTables, db.logs[ns[0]], next) &&
      LogTables(memTables, db.logs[ns[1]], if immTables == [] then next else immTables[|immTables| - 1].number + 1)
    case _ => false
  }

  ghost predicate Init(db: Db) {
    db == Db([], 0, map[3 := MemTable([], 0)], 3, None, map[3 := []], EmptyVersion, 3, 4,
             [Snapshot(EmptyVersion, 0, 2, 0), LoggedEdit(seq(NUM_LEVELS, _ => NoChange), 3, 4, 0)],
             [], None, None, [], {})
  }
}
