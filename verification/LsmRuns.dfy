/** Whole runs of the database: what holds in every reachable state, with and without the closure
    condition on the level a compaction writes to, and why that condition is needed. */
module LsmRuns {
  import opened Keys
  import opened History
  import opened Files
  import opened Ranges
  import opened Builder
  import opened Reads
  import opened Pick
  import opened CompactionWork
  import opened Layout
  import opened Lsm
  import opened LsmInvariant
  import opened LsmWrites
  import opened LsmFlush
  import opened LsmCompact
  import opened LsmRecover

  // ------------------------------------------------------------ one step

  /** Every step keeps the invariant; every step but an unsafe install keeps reads right. */
  lemma StepKeeps(db: Db, db': Db, step: Step)
    requires Invariant(db) && Next(db, db', step)
    ensures Invariant(db')
    ensures ReadsOk(db) && (step.InstallCompaction? ==> SafeToInstall(db)) ==> ReadsOk(db')
  {
    hide *;
    match step
    case BeginGroup(ops) => BeginGroupKeeps(db, db', ops);
    case LogGroup => LogGroupKeeps(db, db');
    case InsertNext => InsertNextKeeps(db, db');
    case CommitGroup => CommitGroupKeeps(db, db');
    case SwitchMemTable => SwitchKeeps(db, db');
    case Flush(level, size, last) =>
      if Entries(db.tables, db.imm) == [] { EmptyFlushKeeps(db, db', level, size, last); } else { FlushKeeps(db, db', level, size, last); }
    case TakeSnapshot => TakeSnapshotKeeps(db, db');
    case ReleaseSnapshot(i) => ReleaseSnapshotKeeps(db, db', i);
    case StartCompaction(c, in0, in1) => StartCompactionKeeps(db, db', c, in0, in1);
    case TrivialMove(c, f, m) => TrivialMoveKeeps(db, db', c, f, m);
    case OpenOutput => OpenOutputKeeps(db, db');
    case InstallCompaction(input, outs, m) => InstallKeeps(db, db', input, outs, m);
    case BeginRead(s) => BeginReadKeeps(db, db', s);
    case EndRead(i) => EndReadKeeps(db, db', i);
    case RemoveObsolete => RemoveObsoleteKeeps(db, db');
    case CrashAndRecover(immTables, memTables, log) => RecoveryKeeps(db, db', immTables, memTables, log);
  }

  // ------------------------------------------------------------ the output level stays closed

  /** No file of the output level outside the inputs continues a user key that ends an input. */
  ghost predicate JobClosed(job: Option<Job>, v: Version) {
    job.Some? && job.value.level + 1 < NUM_LEVELS ==> OutputLevelClosed(v, job.value.level, job.value.in1)
  }

  lemma FlushKeepsClosed(v: Version, v': Version, j: Job, level: nat, f: File)
    requires InputsOk(v, j.level, j.in0, j.in1) && NoGap(j.in0 + j.in1) && ValidFile(f)
    requires WithFile(v, v', level, f) && FlushLevelOk(v, f.smallest.user, f.largest.user, level)
    requires VersionOk(v) && OutputLevelClosed(v, j.level, j.in1)
    ensures OutputLevelClosed(v', j.level, j.in1)
  {
    hide Newer, NoGap, LeftoverNewer, NoDuplicates, FlushLevelOk, SortedFiles, ValidFile, OtherLevelClear, Before;
    var c := j.level + 1;
    assert LevelChange(v[c], v'[c], [], if c == level then [f] else []);
    if c == level {
      FlushMissesInputs(v, j.level, j.in0, j.in1, level, f);
      forall g | g in j.in1 ensures !(Before(g, f) && g.largest.user == f.smallest.user) {
        assert g in j.in0 + j.in1;
        InputIsValid(v, j.level, j.in0, j.in1, g);
        EndsAreEntries(g);
        EndsAreEntries(f);
      }
    }
  }

  /** With the output level closed, nothing outside the inputs is older than a tombstone that rule
      (B) drops, whatever was flushed since the compaction started. */
  lemma ClosedInstallIsSafe(db: Db, j: Job)
    requires Invariant(db) && db.job == Some(j) && OutputLevelClosed(db.version, j.level, j.in1)
    ensures SafeToInstall(db)
  {
    hide DurableOk, LogsOk, LogNumbersOk, MemTablesOk, VersionNumbers, SnapshotsOk, Hidden, View, VersionEntries,
      InputEntries, VersionOk, AllSorted, NumbersOk, InputsOk, NoGap, BaseLevel, WrittenBy, OutputLevelClosed;
    LayersAreOrdered(db);
    var c, inputs := All(db), InputEntries(j);
    forall d | d in inputs && ObsoleteTombstone(d, j.snap, JobBase(j)) ensures View(c - inputs, d.key.user, d.key.sn) == None {
      assert BaseLevel(db.version, j.level, d.key.user);
      forall e | e in c && Hit(e, d.key.user, d.key.sn) ensures e in inputs { OlderIsInput(db, j, e, d); }
      NothingSeen(c - inputs, d.key.user, d.key.sn);
    }
  }

  lemma NothingSeen(c: set<Entry>, u: UserKey, s: int)
    requires forall e :: e in c ==> !Hit(e, u, s)
    ensures View(c, u, s) == None
  {
    NothingIsUnique(c, u, s);
  }

  lemma OlderIsInput(db: Db, j: Job, e: Entry, d: Entry)
    requires Invariant(db) && db.job == Some(j) && OutputLevelClosed(db.version, j.level, j.in1)
    requires d in InputEntries(j) && BaseLevel(db.version, j.level, d.key.user)
    requires e in All(db) && Hit(e, d.key.user, d.key.sn)
    ensures e in InputEntries(j)
  {
    hide DurableOk, LogsOk, LogNumbersOk, MemTablesOk, VersionNumbers, SnapshotsOk, VersionEntries, EntriesOf, VersionOk,
      AllSorted, NumbersOk, InputsOk, NoGap, BaseLevel, OutputLevelClosed, WrittenBy;
    LayersAreOrdered(db);
    InputEntriesAreHeld(db.version, j.level, j.in0, j.in1);
    assert d in VersionEntries(db.version) && d in All(db);
    assert e in VersionEntries(db.version);
    var l, g := HomeOf(db.version, e);
    OlderDataIsInput(j, db.version, l, g, e, d, Full(db));
  }

  /** A compaction whose inputs were closed when it started stays closed until it is installed. */
  lemma StepKeepsClosed(db: Db, db': Db, step: Step)
    requires Invariant(db) && JobClosed(db.job, db.version) && Next(db, db', step)
    requires step.StartCompaction? ==> JobClosed(Some(Job(step.c, step.in0, step.in1, 0, db.version, {})), db.version)
    ensures JobClosed(db'.job, db'.version)
  {
    hide Invariant, MemTablesOk, TablesOk, DurableOk, LogsOk, OutputLevelClosed, EditVersion, InputsOk, NoGap, OutputsOf,
      FlushLevelOk, VersionNumbers, Replay, TablesOfLogs, RecoverableLogs, RecoveredLast;
    if step.Flush? && db.job.Some? { FlushStepKeepsClosed(db, db', step.level, step.size, step.last, db.job.value); }
  }

  lemma FlushStepKeepsClosed(db: Db, db': Db, level: nat, size: nat, last: nat, j: Job)
    requires Invariant(db) && JobClosed(db.job, db.version) && Next(db, db', Flush(level, size, last)) && db.job == Some(j)
    ensures JobClosed(db'.job, db'.version)
  {
    hide DurableOk, LogsOk, OutputLevelClosed, EditVersion, NoGap, FlushLevelOk, VersionNumbers, WithFile,
      NewerThanVersion, NumbersOk, AllSorted, VersionOk, AddedAt, BaseLevel, MemOk, WrittenUpTo, LeftoverNewer, OtherLevelClear,
      SnapshotsOk, ValidFile, LogNumbersOk;
    var es, t, hi := Entries(db.tables, db.imm), db.tables[db.imm.value], db.tables[db.mem].after;
    if es == [] {
      var e := FlushEdit(db, level, size, last);
      UnchangedVersion(db.version, db.nextFile, FlushedTo(db), db.hist, e);
    } else {
      var f := TableOf(db.nextFile, size, es);
      var e := FlushEdit(db, level, size, last);
      FlushKeepsLogs(db);
      FlushedFileIsValid(t, db.hist, hi, db.nextFile, size);
      AddedFileInTables(db, e, level, f, t, hi);
      FlushKeepsClosed(db.version, db'.version, j, level, f);
    }
  }

  // ------------------------------------------------------------ whole runs

  ghost predicate Run(states: seq<Db>, steps: seq<Step>) {
    |states| == |steps| + 1 && Init(states[0]) && forall i :: 0 <= i < |steps| ==> Next(states[i], states[i + 1], steps[i])
  }

  /** No compaction of the run drops a tombstone that still covers a live value left behind. */
  ghost predicate SafeRun(states: seq<Db>, steps: seq<Step>) {
    |states| == |steps| + 1 && forall i :: 0 <= i < |steps| && steps[i].InstallCompaction? ==> SafeToInstall(states[i])
  }

  /** Every compaction of the run starts with its output level closed. */
  ghost predicate ClosedRun(states: seq<Db>, steps: seq<Step>) {
    |states| == |steps| + 1 &&
    forall i :: 0 <= i < |steps| && steps[i].StartCompaction? && steps[i].c + 1 < NUM_LEVELS ==>
      OutputLevelClosed(states[i].version, steps[i].c, steps[i].in1)
  }

  lemma {:induction false} RunKeepsInvariant(states: seq<Db>, steps: seq<Step>, n: nat)
    requires Run(states, steps) && n < |states|
    ensures Invariant(states[n])
    ensures SafeRun(states, steps) ==> ReadsOk(states[n])
  {
    hide Invariant, ReadsRight, ReadersRight, Next, SafeToInstall, Init;
    if n == 0 {
      InitOk(states[0]);
    } else {
      RunKeepsInvariant(states, steps, n - 1);
      StepKeeps(states[n - 1], states[n], steps[n - 1]);
    }
  }

  /** The condition is exact: the reads allowed in every state of a run are right just when no compaction
      of the run was unsafe. */
  lemma RunReadsRightIff(states: seq<Db>, steps: seq<Step>)
    requires Run(states, steps)
    ensures SafeRun(states, steps) <==> forall i :: 0 <= i < |states| ==> ReadsRight(states[i])
  {
    hide Invariant, ReadsRight, ReadersRight, Next, SafeToInstall, Init;
    if SafeRun(states, steps) {
      forall i | 0 <= i < |states| ensures ReadsRight(states[i]) { RunKeepsInvariant(states, steps, i); }
    }
    if forall i :: 0 <= i < |states| ==> ReadsRight(states[i]) {
      forall i | 0 <= i < |steps| && steps[i].InstallCompaction? ensures SafeToInstall(states[i]) {
        RunKeepsInvariant(states, steps, i);
        assert Next(states[i], states[i + 1], steps[i]) && ReadsRight(states[i]) && ReadsRight(states[i + 1]);
        InstallReadsRightIff(states[i], states[i + 1], steps[i].input, steps[i].outs, steps[i].marks);
      }
    }
  }

  lemma {:induction false} ClosedRunKeepsClosed(states: seq<Db>, steps: seq<Step>, n: nat)
    requires Run(states, steps) && ClosedRun(states, steps) && n < |states|
    ensures JobClosed(states[n].job, states[n].version)
  {
    hide Invariant, Next, OutputLevelClosed;
    if n > 0 {
      ClosedRunKeepsClosed(states, steps, n - 1);
      RunKeepsInvariant(states, steps, n - 1);
      StepKeepsClosed(states[n - 1], states[n], steps[n - 1]);
    }
  }

  /** A run whose compactions start closed is safe, flushes in the middle of compactions included. */
  lemma ClosedRunIsSafe(states: seq<Db>, steps: seq<Step>)
    requires Run(states, steps) && ClosedRun(states, steps)
    ensures SafeRun(states, steps)
  {
    hide Invariant, Next, OutputLevelClosed, TombstonesSafe, Init, ClosedRun;
    forall i | 0 <= i < |steps| && steps[i].InstallCompaction? ensures SafeToInstall(states[i]) {
      ClosedRunKeepsClosed(states, steps, i);
      RunKeepsInvariant(states, steps, i);
      if states[i].job.Some? { ClosedJobIsSafe(states[i]); }
    }
  }

  lemma ClosedJobIsSafe(db: Db)
    requires Invariant(db) && db.job.Some? && JobClosed(db.job, db.version)
    ensures SafeToInstall(db)
  {
    hide DurableOk, LogsOk, LogNumbersOk, MemTablesOk, VersionNumbers, SnapshotsOk, TablesOk, TombstonesSafe, OutputLevelClosed,
      NoGap, BaseLevel;
    ClosedInstallIsSafe(db, db.job.value);
  }

  /** What DBImpl::Get returns for u at sequence number s. */
  function GetAt(db: Db, u: UserKey, s: nat): Option<string> {
    Get(Entries(db.tables, Some(db.mem)), Entries(db.tables, db.imm), db.version, u, s)
  }

  /** In every reachable state a read at the latest sequence number or at a live snapshot returns the
      newest write at or before it in the flat history, and nothing if that write is a deletion. */
  lemma RunReadsSeeHistory(states: seq<Db>, steps: seq<Step>, n: nat, u: UserKey, s: nat)
    requires Run(states, steps) && ClosedRun(states, steps) && n < |states|
    requires s == states[n].last || s in states[n].snapshots
    ensures s <= |states[n].hist| && GetAt(states[n], u, s) == Lookup(states[n].hist, u, s)
  {
    hide Invariant, Next, OutputLevelClosed, ReadsRight, ReadersRight, Init, ClosedRun, SafeRun, Get;
    ClosedRunIsSafe(states, steps);
    RunKeepsInvariant(states, steps, n);
    ReadsSeeHistory(states[n], u, s);
  }

  /** A read that runs without the mutex finds for every key what the history held at its snapshot, however many
      switches, flushes, compactions and file removals happened since it captured its version. */
  lemma RunReadersSeeHistory(states: seq<Db>, steps: seq<Step>, n: nat, r: Reader, u: UserKey)
    requires Run(states, steps) && ClosedRun(states, steps) && n < |states| && r in states[n].readers
    ensures var db := states[n];
      r.snapshot <= |db.hist| && VersionNumbers(r.version) <= db.files &&
      GetBy(r, db.tables, u) == Lookup(db.hist, u, r.snapshot)
  {
    hide Basics, MemTablesOk, TablesOk, DurableOk, LogsOk, LogNumbersOk, SnapshotsOk, JobOk, Next, OutputLevelClosed, ReadsRight,
      Init, ClosedRun, SafeRun, Get, VersionNumbers;
    ClosedRunIsSafe(states, steps);
    RunKeepsInvariant(states, steps, n);
  }

  /** In every reachable state, closed or not: each level from 1 on is sorted and disjoint, newer
      entries of a key lie shallower, no live file has been removed, the manifest replays to the
      current version, and the logs of both memtables are still there. */
  lemma RunKeepsLayout(states: seq<Db>, steps: seq<Step>, n: nat)
    requires Run(states, steps) && n < |states|
    ensures var db := states[n];
      VersionOk(db.version) && LiveFiles(db.version, db.readers, db.job) <= db.files &&
      db.manifest != [] && Replay(db.manifest) == db.version && VersionNumbers(Replay(db.manifest)) <= db.files &&
      db.mem in db.logs && (db.imm.Some? ==> db.imm.value in db.logs)
  {
    hide VersionOk, VersionNumbers, Replay, Next, Init, AddsEachOnce, AllSorted, NumbersOk, MemTablesOk, LogsOk, JobOk;
    RunKeepsInvariant(states, steps, n);
  }

  // ------------------------------------------------------------ the history only grows

  /** A step extends the history by a whole group or leaves it alone, crashes included. */
  lemma StepGrowsHistory(db: Db, db': Db, step: Step)
    requires Invariant(db) && Next(db, db', step)
    ensures db'.hist == db.hist || (db.group.Some? && db'.hist == db.hist + db.group.value.ops)
  {
    hide Invariant, OutputsOf, InputsOk, NoGap, FlushLevelOk, EditVersion, Replay, TablesOfLogs, RecoverableLogs, RecoveredLast,
      VersionNumbers;
  }

  lemma {:induction false} HistoryGrows(states: seq<Db>, steps: seq<Step>, a: nat, b: nat)
    requires Run(states, steps) && a <= b < |states|
    ensures states[a].hist <= states[b].hist
  {
    hide Invariant, Next, Init;
    if a < b {
      HistoryGrows(states, steps, a, b - 1);
      RunKeepsInvariant(states, steps, b - 1);
      StepGrowsHistory(states[b - 1], states[b], steps[b - 1]);
    }
  }

  /** A snapshot reads the same at any two points of a run at which it may be read. */
  lemma SnapshotsAreStable(states: seq<Db>, steps: seq<Step>, a: nat, b: nat, u: UserKey, s: nat)
    requires Run(states, steps) && ClosedRun(states, steps) && a <= b < |states|
    requires s == states[a].last || s in states[a].snapshots
    requires s == states[b].last || s in states[b].snapshots
    ensures GetAt(states[b], u, s) == GetAt(states[a], u, s)
  {
    hide Run, ClosedRun, GetAt, Lookup;
    RunReadsSeeHistory(states, steps, a, u, s);
    RunReadsSeeHistory(states, steps, b, u, s);
    HistoryGrows(states, steps, a, b);
    var h, h' := states[a].hist, states[b].hist;
    LookupIgnoresLaterWrites(h, h'[|h|..], u, s);
    assert h + h'[|h|..] == h';
  }
}
