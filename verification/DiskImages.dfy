/** Every reachable state has an image on disk: a manifest and logs whose bytes recovery starts from. */
module DiskImages {
  import opened Keys
  import opened Coding
  import opened History
  import opened Files
  import opened Ranges
  import opened Builder
  import opened Reads
  import opened Pick
  import opened CompactionWork
  import opened Lsm
  import opened LsmInvariant
  import opened LsmWrites
  import opened LsmCompact
  import opened LsmRuns
  import opened ManifestFiles
  import opened DiskRecovery
  import VE = VersionEdits
  import WB = WriteBatches
  import LF = LogFormat

  // ------------------------------------------------------------ what the manifest of a run holds

  /** An edit adds f to level l. */
  ghost predicate AddsTo(e: LoggedEdit, l: nat, f: File) {
    l < NUM_LEVELS && f in e.levels[l].added
  }

  ghost predicate Adds(m: Manifest, f: File) {
    exists e: LoggedEdit, l: nat :: e in m && AddsTo(e, l, f)
  }

  ghost predicate FileWithin(f: File, n: nat, h: Log) {
    f.number < n && ValidFile(f) && forall x :: x in f.entries ==> WrittenBy(x, h)
  }

  /** The counters are not ahead, deleted files had numbers, and added ones hold what was written. */
  ghost predicate EditWithin(e: LoggedEdit, n: nat, last: nat, h: Log) {
    e.logNumber <= n && e.nextFile <= n && e.lastSequence <= last &&
    (forall l: nat, k :: l < NUM_LEVELS && k in e.levels[l].deleted ==> k < n) && forall l: nat, f :: AddsTo(e, l, f) ==> FileWithin(f, n, h)
  }

  ghost predicate ManifestWithin(m: Manifest, n: nat, last: nat, h: Log) {
    forall e :: e in m ==> EditWithin(e, n, last, h)
  }

  /** A number stands for one table, wherever it was added. */
  ghost predicate SameTables(m: Manifest) {
    forall f, g :: Adds(m, f) && Adds(m, g) && f.number == g.number ==> f.entries == g.entries
  }

  ghost predicate Within(db: Db) {
    ManifestWithin(db.manifest, db.nextFile, db.last, db.hist) && SameTables(db.manifest)
  }

  // ------------------------------------------------------------ added files and replayed files

  lemma {:induction false} AddedIn(edits: seq<LevelEdit>, f: File)
    ensures f in AllAdded(edits) <==> exists i :: 0 <= i < |edits| && f in edits[i].added
  {
    if edits != [] {
      var n := |edits| - 1;
      var before := edits[..n];
      AddedIn(before, f);
      assert forall i :: 0 <= i < n ==> before[i] == edits[i];
      assert f in AllAdded(edits) <==> f in AllAdded(before) || f in edits[n].added;
    }
  }

  lemma AddedAtLevel(m: Manifest, l: nat, f: File)
    requires l < NUM_LEVELS
    ensures f in AllAdded(LevelPart(m, l)) <==> exists e :: e in m && AddsTo(e, l, f)
  {
    AddedIn(LevelPart(m, l), f);
    if e :| e in m && AddsTo(e, l, f) {
      var i :| 0 <= i < |m| && m[i] == e;
      assert f in LevelPart(m, l)[i].added;
    }
    if i :| 0 <= i < |m| && f in LevelPart(m, l)[i].added { assert AddsTo(m[i], l, f); }
  }

  /** What the builder has gathered when all edits are in. */
  lemma ReplayIsGathered(m: Manifest, l: nat)
    requires AddsEachOnce(m) && l < NUM_LEVELS
    ensures var a := LevelPart(m, l); forall f :: f in Replay(m)[l] <==> f in AllAdded(a) && f.number !in Gather(a).deleted
  {
    hide Gather, ApplyEach, FileLess;
    var a := LevelPart(m, l);
    assert [] + AllAdded(a) == AllAdded(a);
    GatherFollows([], a);
    ReplayEqualsStepwise([], a);
  }

  /** A replayed file was added. */
  lemma ReplayedWasAdded(m: Manifest, l: nat, f: File)
    requires AddsEachOnce(m) && l < NUM_LEVELS && f in Replay(m)[l]
    ensures Adds(m, f)
  {
    hide Replay, AddsEachOnce, AllAdded, Gather, AddsTo;
    ReplayIsGathered(m, l);
    AddedAtLevel(m, l, f);
  }

  lemma {:induction false} AppliedDeletes(st: LevelState, added: seq<File>)
    ensures ApplyAdded(st, added).deleted == st.deleted - Numbers(added)
    decreases |added|
  {
    if added != [] {
      AppliedDeletes(LevelState(st.deleted - {added[0].number}, InsertFile(st.added, added[0])), added[1..]);
      assert Numbers(added) == {added[0].number} + Numbers(added[1..]) by {
        assert added == [added[0]] + added[1..];
      }
    }
  }

  /** What the last edit adds is there. */
  lemma LastAddedIsReplayed(m: Manifest, l: nat, f: File)
    requires m != [] && AddsEachOnce(m) && AddsTo(LastEdit(m), l, f)
    ensures f in Replay(m)[l]
  {
    hide Replay, AddsEachOnce, AllAdded, ApplyAdded;
    var a, e := LevelPart(m, l), LastEdit(m);
    ReplayIsGathered(m, l);
    AddedAtLevel(m, l, f);
    assert e == m[|m| - 1] && e in m && a[|a| - 1] == e.levels[l];
    var st := Gather(a[..|a| - 1]);
    AppliedDeletes(LevelState(st.deleted + e.levels[l].deleted, st.added), e.levels[l].added);
    assert f.number in Numbers(e.levels[l].added);
  }

  /** Of edits that delete nothing everything added is there. */
  lemma {:induction false} NothingDeleted(edits: seq<LevelEdit>)
    requires forall i :: 0 <= i < |edits| ==> edits[i].deleted == {}
    ensures Gather(edits).deleted == {}
  {
    hide ApplyAdded;
    if edits != [] {
      var n := |edits| - 1;
      NothingDeleted(edits[..n]);
      var st := Gather(edits[..n]);
      AppliedDeletes(LevelState(st.deleted + edits[n].deleted, st.added), edits[n].added);
    }
  }

  lemma AllAddedIsReplayed(m: Manifest, l: nat, f: File)
    requires AddsEachOnce(m) && (forall e, k: nat :: e in m && k < NUM_LEVELS ==> e.levels[k].deleted == {})
    requires exists e :: e in m && AddsTo(e, l, f)
    ensures l < NUM_LEVELS && f in Replay(m)[l]
  {
    hide Replay, AddsEachOnce, AllAdded, Gather;
    var e :| e in m && AddsTo(e, l, f);
    ReplayIsGathered(m, l);
    AddedAtLevel(m, l, f);
    NothingDeleted(LevelPart(m, l));
  }

  // ------------------------------------------------------------ each step

  lemma LaterWithin(m: Manifest, n: nat, last: nat, h: Log, n': nat, last': nat, h': Log)
    requires ManifestWithin(m, n, last, h) && n <= n' && last <= last' && h <= h'
    ensures ManifestWithin(m, n', last', h')
  {
    hide ValidFile;
    forall e | e in m ensures EditWithin(e, n', last', h') {
      assert EditWithin(e, n, last, h);
      forall l: nat, f | AddsTo(e, l, f) ensures FileWithin(f, n', h') { assert FileWithin(f, n, h); }
    }
  }

  /** Files of the version hold what was written. */
  lemma VersionWithin(db: Db, l: nat, f: File)
    requires Invariant(db) && l < NUM_LEVELS && f in db.version[l]
    ensures FileWithin(f, db.nextFile, db.hist)
  {
    hide DurableOk, LogsOk, LogNumbersOk, JobOk, SnapshotsOk, MemTablesOk, LiveFiles, NumberOrder, LevelOrder,
      AllSorted, ValidFile, WrittenBy;
    forall x | x in f.entries ensures WrittenBy(x, db.hist) { VersionEntriesUnder(db.version, l, f, x); }
  }

  lemma ManifestIsVersion(db: Db)
    requires Invariant(db)
    ensures db.manifest != [] && AddsEachOnce(db.manifest) && Replay(db.manifest) == db.version
    ensures LastEdit(db.manifest).nextFile <= db.nextFile && LastEdit(db.manifest).logNumber == db.logNumber
    ensures LastEdit(db.manifest).lastSequence <= db.last && db.logNumber < db.nextFile
  {
    hide TablesOk, LogsOk, JobOk, SnapshotsOk, MemTablesOk, LiveFiles, AddsEachOnce, Replay, VersionNumbers;
  }

  /** One edit more, whose files are in the new version. */
  lemma AppendedWithin(db: Db, db': Db, e: LoggedEdit)
    requires Invariant(db') && Within(db) && db'.manifest == db.manifest + [e]
    requires db.nextFile <= db'.nextFile && db.last <= db'.last && db.hist <= db'.hist
    requires forall l: nat, k :: l < NUM_LEVELS && k in e.levels[l].deleted ==> k < db'.nextFile
    ensures ManifestWithin(db'.manifest, db'.nextFile, db'.last, db'.hist)
  {
    hide Invariant, AddsEachOnce, Replay, FileWithin, AddsTo, SameTables;
    LaterWithin(db.manifest, db.nextFile, db.last, db.hist, db'.nextFile, db'.last, db'.hist);
    ManifestIsVersion(db');
    assert LastEdit(db'.manifest) == e;
    forall l: nat, f | AddsTo(e, l, f) ensures FileWithin(f, db'.nextFile, db'.hist) {
      LastAddedIsReplayed(db'.manifest, l, f);
      LevelOfAdded(e, l, f);
      VersionWithin(db', l, f);
    }
    assert EditWithin(e, db'.nextFile, db'.last, db'.hist);
  }

  lemma LevelOfAdded(e: LoggedEdit, l: nat, f: File)
    requires AddsTo(e, l, f)
    ensures l < NUM_LEVELS
  {
  }

  /** The new files are tables there were under their numbers, or have numbers of their own. */
  lemma AppendedTables(m: Manifest, e: LoggedEdit)
    requires SameTables(m)
    requires forall l: nat, f, g :: AddsTo(e, l, f) && Adds(m, g) ==> f.number != g.number || f.entries == g.entries
    requires forall l: nat, k: nat, f, g :: AddsTo(e, l, f) && AddsTo(e, k, g) && f.number == g.number ==> f.entries == g.entries
    ensures SameTables(m + [e])
  {
    hide AddsTo;
    forall f, g | Adds(m + [e], f) && Adds(m + [e], g) && f.number == g.number ensures f.entries == g.entries {
      OldOrNew(m, e, f);
      OldOrNew(m, e, g);
    }
  }

  lemma OldOrNew(m: Manifest, e: LoggedEdit, f: File)
    requires Adds(m + [e], f)
    ensures Adds(m, f) || exists l: nat :: AddsTo(e, l, f)
  {
    hide AddsTo;
    var d: LoggedEdit, l: nat :| d in m + [e] && AddsTo(d, l, f);
    if d in m { assert Adds(m, f); }
  }

  lemma NumberInUse(db: Db, g: File)
    requires Invariant(db) && Within(db) && Adds(db.manifest, g)
    ensures g.number < db.nextFile
  {
    hide Invariant, ValidFile, SameTables;
    var e: LoggedEdit, l: nat :| e in db.manifest && AddsTo(e, l, g);
    assert EditWithin(e, db.nextFile, db.last, db.hist);
  }

  lemma FlushWithin(db: Db, db': Db, level: nat, size: nat, last: nat)
    requires Invariant(db) && Within(db) && Next(db, db', Flush(level, size, last)) && Invariant(db')
    ensures Within(db')
  {
    hide Invariant, EditVersion, FlushLevelOk, ManifestWithin, SameTables;
    var e := FlushEdit(db, level, size, last);
    AppendedWithin(db, db', e);
    forall l: nat, f, g | AddsTo(e, l, f) && Adds(db.manifest, g) ensures f.number != g.number {
      NumberInUse(db, g);
    }
    AppendedTables(db.manifest, e);
  }

  lemma MoveWithin(db: Db, db': Db, c: nat, f: File, m: Marks)
    requires Invariant(db) && Within(db) && Next(db, db', TrivialMove(c, f, m)) && Invariant(db')
    ensures Within(db')
  {
    hide Invariant, EditVersion, ManifestWithin, SameTables, LeftoverNewer, OtherLevelClear, Adds, Replay, AddsEachOnce;
    var e := MoveEdit(db, c, f, m);
    ManifestIsVersion(db);
    assert f in [f] && f in db.version[c];
    ReplayedWasAdded(db.manifest, c, f);
    VersionWithin(db, c, f);
    AppendedWithin(db, db', e);
    forall l: nat, x, g | AddsTo(e, l, x) && Adds(db.manifest, g) ensures x.number != g.number || x.entries == g.entries {
      assert x == f;
      if f.number == g.number { OneTable(db.manifest, f, g); }
    }
    AppendedTables(db.manifest, e);
  }

  lemma OneTable(m: Manifest, f: File, g: File)
    requires SameTables(m) && Adds(m, f) && Adds(m, g) && f.number == g.number
    ensures f.entries == g.entries
  {
  }

  /** The outputs of a compaction have numbers that were never added. */
  lemma PendingUnused(db: Db, k: nat, g: File)
    requires Invariant(db) && db.job.Some? && k in db.job.value.pending && Adds(db.manifest, g)
    ensures g.number != k
  {
    hide TablesOk, LogsOk, LogNumbersOk, DurableOk, SnapshotsOk, MemTablesOk, LiveFiles, AllAdded, InputsOk, NoGap,
      BaseLevel, VersionNumbers;
    var e: LoggedEdit, l: nat :| e in db.manifest && AddsTo(e, l, g);
    AddedAtLevel(db.manifest, l, g);
    assert g.number in AddedAt(db.manifest, l);
  }

  lemma InstallWithin(db: Db, db': Db, input: seq<Entry>, outs: seq<File>, m: Marks)
    requires Invariant(db) && Within(db) && Next(db, db', InstallCompaction(input, outs, m)) && Invariant(db')
    ensures Within(db')
  {
    hide Invariant, EditVersion, ManifestWithin, SameTables, InputEntries, JobBase, Survivors, Flatten, EachNumberOnce;
    var j := db.job.value;
    var e := InstallEdit(db, j, outs, m);
    forall l: nat, k | l < NUM_LEVELS && k in e.levels[l].deleted ensures k < db'.nextFile { InputNumberInUse(db, j, l, k); }
    AppendedWithin(db, db', e);
    forall l: nat, f, g | AddsTo(e, l, f) && Adds(db.manifest, g) ensures f.number != g.number {
      assert f.number in Numbers(outs);
      PendingUnused(db, f.number, g);
    }
    forall f, g | f in outs && g in outs && f.number == g.number ensures f == g { OnceIsSame(outs, f, g); }
    AppendedTables(db.manifest, e);
  }

  lemma OnceIsSame(fs: seq<File>, f: File, g: File)
    requires EachNumberOnce(fs) && f in fs && g in fs && f.number == g.number
    ensures f == g
  {
  }

  lemma InputNumberInUse(db: Db, j: Job, l: nat, k: nat)
    requires Invariant(db) && db.job == Some(j) && (k in Numbers(j.in0) || k in Numbers(j.in1))
    ensures k < db.nextFile
  {
    hide LogsOk, LogNumbersOk, DurableOk, SnapshotsOk, MemTablesOk, LiveFiles, NoGap, BaseLevel, VersionNumbers, VersionOk, AllSorted,
      LeftoverNewer, OtherLevelClear, WrittenUpTo, NoDuplicates;
    var f :| (f in j.in0 || f in j.in1) && f.number == k;
    if f in j.in0 { assert f in db.version[j.level]; } else { assert f in db.version[j.level + 1]; }
  }

  lemma CrashWithin(db: Db, db': Db, imm: seq<File>, mem: seq<File>, log: nat)
    requires Invariant(db) && Next(db, db', CrashAndRecover(imm, mem, log)) && Invariant(db')
    ensures Within(db')
  {
    hide Invariant, EditVersion, TablesOfLogs, RecoveredLast, VersionNumbers, Replay, AddsEachOnce, FileWithin;
    var ns :| RecoverableLogs(db, ns) && (forall n :: n in ns ==> n < log) && TablesOfLogs(db, ns, imm, mem, LastEdit(db.manifest).nextFile + 1) &&
      db' == Recovered(db, db.hist + Logged(db), RecoveredLast(db, ns), imm + mem, log);
    ManifestIsVersion(db);
    ManifestIsVersion(db');
    LogNumberIsRead(db, ns, log);
    var m := db'.manifest;
    assert m[0] in m && m[1] in m && |m| == 2;
    forall e, l: nat, f | e in m && AddsTo(e, l, f) ensures l < NUM_LEVELS && f in db'.version[l] { AllAddedIsReplayed(m, l, f); }
    forall e | e in m ensures EditWithin(e, db'.nextFile, db'.last, db'.hist) {
      RecoveredCounters(db, db', ns, imm + mem, log, e);
      forall l: nat, f | AddsTo(e, l, f) ensures FileWithin(f, db'.nextFile, db'.hist) { VersionWithin(db', l, f); }
    }
    forall f, g | Adds(m, f) && Adds(m, g) && f.number == g.number ensures f.entries == g.entries {
      var d: LoggedEdit, l: nat :| d in m && AddsTo(d, l, f);
      var e: LoggedEdit, k: nat :| e in m && AddsTo(e, k, g);
      NumbersAreOwn(db', l, f, k, g);
    }
  }

  lemma NumbersAreOwn(db: Db, l: nat, f: File, k: nat, g: File)
    requires Invariant(db) && l < NUM_LEVELS && k < NUM_LEVELS && f in db.version[l] && g in db.version[k] && f.number == g.number
    ensures f == g
  {
    hide DurableOk, LogsOk, LogNumbersOk, JobOk, SnapshotsOk, MemTablesOk, LiveFiles, VersionOk, AllSorted, WrittenUpTo;
  }

  lemma LogNumberIsRead(db: Db, ns: seq<nat>, log: nat)
    requires Invariant(db) && RecoverableLogs(db, ns) && forall n :: n in ns ==> n < log
    ensures db.logNumber < log
  {
    hide TablesOk, JobOk, SnapshotsOk, MemTablesOk, LiveFiles, AddsEachOnce, Replay, AddedOk, VersionNumbers, LogHolds;
    assert db.logNumber in ns;
  }

  lemma RecoveredCounters(db: Db, db': Db, ns: seq<nat>, fs: seq<File>, log: nat, e: LoggedEdit)
    requires Invariant(db) && Invariant(db') && db.manifest != [] && (forall n :: n in ns ==> n in db.logs) && db.logNumber < log
    requires db' == Recovered(db, db.hist + Logged(db), RecoveredLast(db, ns), fs, log) && e in db'.manifest
    ensures e.logNumber <= db'.nextFile && e.nextFile <= db'.nextFile && e.lastSequence <= db'.last
    ensures forall l: nat :: l < NUM_LEVELS ==> e.levels[l].deleted == {}
  {
    hide Invariant, EditVersion, RecoveredLast, Replay;
    ManifestIsVersion(db);
    LastCovers(db, db');
  }

  lemma LastCovers(db: Db, db': Db)
    requires Invariant(db) && Invariant(db') && db'.hist == db.hist + Logged(db)
    ensures db.last <= db'.last
  {
    hide TablesOk, DurableOk, LogsOk, LogNumbersOk, JobOk, SnapshotsOk, MemTablesOk, LiveFiles;
  }

  /** Steps that log no edit only move the counters and the history on. */
  lemma QuietStepWithin(db: Db, db': Db, step: Step)
    requires Invariant(db) && Within(db) && Next(db, db', step)
    requires !step.Flush? && !step.TrivialMove? && !step.InstallCompaction? && !step.CrashAndRecover?
    ensures Within(db')
  {
    hide Invariant, InputsOk, NoGap, LiveFiles, ManifestWithin, SameTables, Insert, EntryOf, Recovers, OutputsOf, FlushLevelOk, EditVersion;
    LaterWithin(db.manifest, db.nextFile, db.last, db.hist, db'.nextFile, db'.last, db'.hist);
  }

  lemma StepKeepsWithin(db: Db, db': Db, step: Step)
    requires Invariant(db) && Within(db) && Next(db, db', step)
    ensures Within(db')
  {
    hide Invariant, Within, Next, SafeToInstall, ReadsOk;
    StepKeeps(db, db', step);
    match step
    case Flush(level, size, last) => FlushWithin(db, db', level, size, last);
    case TrivialMove(c, f, m) => MoveWithin(db, db', c, f, m);
    case InstallCompaction(input, outs, m) => InstallWithin(db, db', input, outs, m);
    case CrashAndRecover(imm, mem, log) => CrashWithin(db, db', imm, mem, log);
    case _ => QuietStepWithin(db, db', step);
  }

  /** In every reachable state of a run the manifest is within what the state counts, and each number it has is that of
      one table. */
  lemma {:induction false} RunKeepsWithin(states: seq<Db>, steps: seq<Step>, n: nat)
    requires Run(states, steps) && n < |states|
    ensures Within(states[n])
  {
    hide Invariant, Within, Next, Init;
    if n == 0 {
      StartWithin(states[0]);
    } else {
      RunKeepsWithin(states, steps, n - 1);
      RunKeepsInvariant(states, steps, n - 1);
      StepKeepsWithin(states[n - 1], states[n], steps[n - 1]);
    }
  }

  lemma StartWithin(db: Db)
    requires Init(db)
    ensures Within(db)
  {
    hide FileWithin;
    forall e, l: nat, f | e in db.manifest ensures !AddsTo(e, l, f) { }
  }

  // ------------------------------------------------------------ the bytes

  /** Within the widths of a batch record, under byte keys and values that mean it. */
  ghost predicate OpFits(x: Op, name: UserKey -> Bytes, mean: Meaning) {
    Named(x.key, name, mean) && (x.Put? ==> IsText(x.value) && |x.value| < 0x1_0000_0000)
  }

  ghost predicate LogFits(h: Log, name: UserKey -> Bytes, mean: Meaning) {
    mean.text == TextOf && forall x :: x in h ==> OpFits(x, name, mean)
  }

  /** Numbers, tables and groups within the widths of the fields that hold them. */
  ghost predicate DbFits(db: Db, name: UserKey -> Bytes, mean: Meaning) {
    db.nextFile < TWO_64 && (forall f :: Adds(db.manifest, f) ==> f.size < TWO_64) && LogFits(Full(db), name, mean) &&
    (forall n, b :: n in db.logs && b in db.logs[n] ==> |b.ops| < WB.MAX_COUNT) && |GroupOps(db)| < WB.MAX_COUNT
  }

  /** Whatever operations on byte keys and values were written, with their keys ranked among all that occur they are a
      history within the widths. */
  lemma RanksFit(xs: seq<WB.BatchOp>, keys: set<Bytes>)
    requires forall x :: x in xs ==> x.key in keys && |x.key| < 0xFFFF_FFF0 && (x.PutOp? ==> |x.value| < 0x1_0000_0000)
    ensures LogFits(AllMeant(xs, MeaningOf(keys)), NameIn(keys), MeaningOf(keys))
  {
    hide RankIn, KeyOfRank;
    var mean := MeaningOf(keys);
    KeysHaveRanks(keys);
    forall i | 0 <= i < |xs| ensures OpFits(AllMeant(xs, mean)[i], NameIn(keys), mean) {
      assert xs[i] in xs && NameIn(keys)(mean.rank(xs[i].key)) == xs[i].key;
    }
  }

  function OpOf(x: Op, name: UserKey -> Bytes): WB.BatchOp {
    match x
    case Put(k, v) => WB.PutOp(name(k), BytesOfText(v))
    case Delete(k) => WB.DeleteOp(name(k))
  }

  lemma OpComesBack(x: Op, name: UserKey -> Bytes, mean: Meaning)
    requires OpFits(x, name, mean) && mean.text == TextOf
    ensures WB.OpOk(OpOf(x, name)) && Meant(OpOf(x, name), mean) == x
  {
    if x.Put? { TextComesBack(x.value); }
  }

  /** The record of a batch: number, count and operations. */
  function RecordOf(b: Batch, name: UserKey -> Bytes): Bytes
    requires b.start < TWO_64 && |b.ops| < WB.MAX_COUNT
  {
    Fixed64Bytes(b.start) + EncodeFixed32(|b.ops|) + WB.OpsBytes(seq(|b.ops|, i requires 0 <= i < |b.ops| => OpOf(b.ops[i], name)))
  }

  lemma BatchHasRecord(b: Batch, name: UserKey -> Bytes, mean: Meaning)
    requires b.start < TWO_64 && |b.ops| < WB.MAX_COUNT && LogFits(b.ops, name, mean)
    ensures IsBatch(RecordOf(b, name), b, mean)
  {
    hide Fixed64Bytes, EncodeFixed32, DecodeFixed64, DecodeFixed32, WB.OpsBytes, OpFits, OpOf, WB.OpOk;
    var xs := seq(|b.ops|, i requires 0 <= i < |b.ops| => OpOf(b.ops[i], name));
    var x, y, z := Fixed64Bytes(b.start), EncodeFixed32(|b.ops|), WB.OpsBytes(xs);
    var r := x + y + z;
    assert r[..8] == x && r[8..12] == y && r[12..] == z;
    Fixed64RoundTrip(b.start);
    Fixed32RoundTrip(|b.ops|);
    forall i | 0 <= i < |xs| ensures WB.OpOk(xs[i]) && Meant(xs[i], mean) == b.ops[i] { OpComesBack(b.ops[i], name, mean); }
    assert AllMeant(xs, mean) == b.ops;
    assert WB.Holds(r, xs, b.start);
  }

  /** The batches of a log that fit. */
  ghost predicate BatchesFit(bs: seq<Batch>, name: UserKey -> Bytes, mean: Meaning) {
    forall b :: b in bs ==> b.start < TWO_64 && |b.ops| < WB.MAX_COUNT && LogFits(b.ops, name, mean)
  }

  function RecordsOf(bs: seq<Batch>, name: UserKey -> Bytes): seq<Bytes>
    requires forall b :: b in bs ==> b.start < TWO_64 && |b.ops| < WB.MAX_COUNT
  {
    seq(|bs|, i requires 0 <= i < |bs| => RecordOf(bs[i], name))
  }

  lemma BatchesHaveRecords(bs: seq<Batch>, name: UserKey -> Bytes, mean: Meaning)
    requires BatchesFit(bs, name, mean)
    ensures AreBatches(RecordsOf(bs, name), bs, mean)
  {
    hide RecordOf, IsBatch, LogFits;
    forall i | 0 <= i < |bs| ensures IsBatch(RecordsOf(bs, name)[i], bs[i], mean) {
      assert bs[i] in bs;
      BatchHasRecord(bs[i], name, mean);
    }
  }

  lemma {:induction false} OpsOfBatch(bs: seq<Batch>, i: nat)
    requires i < |bs|
    ensures forall x :: x in bs[i].ops ==> x in Ops(bs)
  {
    var n := |bs| - 1;
    if i < n {
      OpsOfBatch(bs[..n], i);
      assert bs[..n][i] == bs[i];
    }
  }

  lemma {:induction false} StartsBelow(bs: seq<Batch>, i: nat)
    requires i <= |bs|
    ensures |Ops(bs[..i])| <= |Ops(bs)|
    decreases |bs| - i
  {
    if i < |bs| {
      StartsBelow(bs, i + 1);
      assert bs[..i + 1][..i] == bs[..i];
    } else {
      assert bs[..i] == bs;
    }
  }

  /** A log of a stretch of the history fits. */
  lemma LogOfHistoryFits(bs: seq<Batch>, h: Log, a: nat, b: nat, name: UserKey -> Bytes, mean: Meaning)
    requires LogHolds(bs, h, a, b) && LogFits(h, name, mean) && |h| < MAX_SEQUENCE
    requires forall x :: x in bs ==> |x.ops| < WB.MAX_COUNT
    ensures BatchesFit(bs, name, mean)
  {
    hide Ops, OpFits;
    forall x | x in bs ensures x.start < TWO_64 && LogFits(x.ops, name, mean) {
      var i :| 0 <= i < |bs| && bs[i] == x;
      OpsOfBatch(bs, i);
      StartsBelow(bs, i);
      forall y | y in x.ops ensures OpFits(y, name, mean) { assert y in Ops(bs) && y in h; }
    }
  }

  /** What the two logs of a state hold fits. */
  lemma LogsFit(db: Db, name: UserKey -> Bytes, mean: Meaning)
    requires Invariant(db) && DbFits(db, name, mean)
    ensures db.mem in db.logs && BatchesFit(db.logs[db.mem], name, mean)
    ensures db.imm.Some? ==> db.imm.value in db.logs && BatchesFit(db.logs[db.imm.value], name, mean)
    ensures db.last + 1 < TWO_64 && LogFits(GroupOps(db), name, mean)
  {
    hide TablesOk, DurableOk, LogNumbersOk, JobOk, SnapshotsOk, MemTablesOk, LiveFiles, LogHolds, OpFits, BatchesFit, Adds;
    PartsFit(db, name, mean);
    LogOfHistoryFits(db.logs[db.mem], db.hist + Logged(db), db.tables[db.mem].after, |db.hist + Logged(db)|, name, mean);
    if db.imm.Some? {
      LogOfHistoryFits(db.logs[db.imm.value], db.hist, db.tables[db.imm.value].after, db.tables[db.mem].after, name, mean);
    }
  }

  lemma PartsFit(db: Db, name: UserKey -> Bytes, mean: Meaning)
    requires DbFits(db, name, mean)
    ensures LogFits(db.hist, name, mean) && LogFits(db.hist + Logged(db), name, mean) && LogFits(GroupOps(db), name, mean)
  {
    hide OpFits, Adds;
    assert forall x :: x in db.hist + Logged(db) ==> x in Full(db);
    assert forall x :: x in GroupOps(db) ==> x in Full(db);
  }

  /** The log of a state: its batches, and, of a group that is being logged, any part of its record. */
  ghost predicate MayBeLog(file: Bytes, crc: LF.Checksum, db: Db, name: UserKey -> Bytes)
    requires db.mem in db.logs && db.last + 1 < TWO_64 && |GroupOps(db)| < WB.MAX_COUNT
    requires forall b :: b in db.logs[db.mem] ==> b.start < TWO_64 && |b.ops| < WB.MAX_COUNT
  {
    var rs := RecordsOf(db.logs[db.mem], name);
    if db.group.Some? && !db.group.value.logged then
      LF.LogBytes(crc, rs) <= file <= LF.LogBytes(crc, rs + [RecordOf(Batch(db.last + 1, db.group.value.ops), name)])
    else file == LF.LogBytes(crc, rs)
  }

  lemma LogImage(db: Db, file: Bytes, crc: LF.Checksum, name: UserKey -> Bytes, mean: Meaning) returns (logs: map<nat, Bytes>)
    requires Invariant(db) && DbFits(db, name, mean) && db.mem in db.logs && db.last + 1 < TWO_64
    requires forall b :: b in db.logs[db.mem] ==> b.start < TWO_64 && |b.ops| < WB.MAX_COUNT
    requires MayBeLog(file, crc, db, name)
    ensures LogsOnDisk(db, logs, crc, mean) && db.mem in logs && logs[db.mem] == file
  {
    hide Invariant, LF.LogBytes, IsBatch, RecordOf, LogFits, Adds;
    LogsFit(db, name, mean);
    BatchesHaveRecords(db.logs[db.mem], name, mean);
    if db.group.Some? && !db.group.value.logged { BatchHasRecord(Batch(db.last + 1, db.group.value.ops), name, mean); }
    ImmIsOther(db);
    logs := map n | n in db.logs :: [];
    if db.imm.Some? {
      BatchesHaveRecords(db.logs[db.imm.value], name, mean);
      logs := logs[db.imm.value := LF.LogBytes(crc, RecordsOf(db.logs[db.imm.value], name))];
    }
    logs := logs[db.mem := file];
  }

  lemma ImmIsOther(db: Db)
    requires Invariant(db)
    ensures db.imm.Some? ==> db.imm.value in db.logs && db.imm.value != db.mem
  {
    hide TablesOk, DurableOk, LogNumbersOk, JobOk, SnapshotsOk, MemTablesOk, LiveFiles, LogsOk;
  }

  // ------------------------------------------------------------ the manifest

  /** The table of each number the manifest has. */
  ghost function TableIn(m: Manifest, n: nat): seq<Entry> {
    if f :| Adds(m, f) && f.number == n then f.entries else []
  }

  ghost function TablesOf(m: Manifest): nat -> seq<Entry> {
    (n: nat) => TableIn(m, n)
  }

  lemma TableIsThere(m: Manifest, f: File)
    requires SameTables(m) && Adds(m, f)
    ensures TablesOf(m)(f.number) == f.entries
  {
    hide Adds;
  }

  /** A key that was written is named. */
  lemma WrittenIsNamed(x: Entry, h: Log, name: UserKey -> Bytes, mean: Meaning)
    requires WrittenBy(x, h) && LogFits(h, name, mean)
    ensures Named(x.key.user, name, mean)
  {
    assert h[x.key.sn - 1] in h;
  }

  lemma AddedFits(f: File, m: Manifest, n: nat, h: Log, name: UserKey -> Bytes, mean: Meaning)
    requires SameTables(m) && Adds(m, f) && FileWithin(f, n, h) && n < TWO_64 && f.size < TWO_64 && LogFits(h, name, mean)
    ensures FileFits(f, name, mean, TablesOf(m))
  {
    hide Adds, SameTables, Named, Sorted, WrittenBy, TablesOf, OpFits;
    TableIsThere(m, f);
    assert f.entries[0] in f.entries && f.entries[|f.entries| - 1] in f.entries;
    WrittenIsNamed(f.entries[0], h, name, mean);
    WrittenIsNamed(f.entries[|f.entries| - 1], h, name, mean);
  }

  lemma EditsFit(db: Db, name: UserKey -> Bytes, mean: Meaning, e: LoggedEdit)
    requires Within(db) && DbFits(db, name, mean) && db.last < TWO_64 && e in db.manifest
    ensures EditFits(e, name, mean, TablesOf(db.manifest))
  {
    hide SameTables, FileFits, FileWithin, TablesOf, LogFits;
    PartsFit(db, name, mean);
    assert EditWithin(e, db.nextFile, db.last, db.hist);
    forall l: nat, f | l < NUM_LEVELS && f in e.levels[l].added ensures FileFits(f, name, mean, TablesOf(db.manifest)) {
      assert AddsTo(e, l, f) && Adds(db.manifest, f);
      AddedFits(f, db.manifest, db.nextFile, db.hist, name, mean);
    }
  }

  /** A record for each edit. */
  lemma {:induction false} EditsHaveRecords(m: Manifest, name: UserKey -> Bytes, mean: Meaning, table: nat -> seq<Entry>, comparator: Bytes)
    returns (rs: seq<Bytes>, xs: seq<VE.Edit>)
    requires |comparator| < 0x1_0000_0000 && forall e :: e in m ==> EditFits(e, name, mean, table)
    ensures AreEdits(rs, xs, m, mean, table, comparator) && |rs| == |xs| == |m| && forall i :: 0 <= i < |xs| ==> HasCounters(xs[i])
  {
    hide EditFits, IsEdit, VE.Encoding, VE.Items, HasCounters;
    if m == [] {
      rs, xs := [], [];
    } else {
      var n := |m| - 1;
      rs, xs := EditsHaveRecords(m[..n], name, mean, table, comparator);
      var x := EditHasRecord(m[n], name, mean, table, comparator);
      rs, xs := rs + [VE.Encoding(VE.Items(x))], xs + [x];
    }
  }

  // ------------------------------------------------------------ every reachable state

  lemma LastFits(db: Db)
    requires Invariant(db)
    ensures db.last + 1 < TWO_64 && db.manifest != []
  {
    hide TablesOk, LogNumbersOk, JobOk, SnapshotsOk, MemTablesOk, LiveFiles, LogsOk, AddsEachOnce, AddedOk, Replay, VersionNumbers;
  }

  /** The bytes that may be found after a crash: in the manifest the edits of db, and of one more edit, when LogAndApply is
      at work on the step to later, any part of its record. */
  ghost predicate MayBeManifest(file: Bytes, crc: LF.Checksum, rs: seq<Bytes>, db: Db, later: Db) {
    |db.manifest| <= |rs| == |later.manifest| && LF.LogBytes(crc, rs[..|db.manifest|]) <= file <= LF.LogBytes(crc, rs)
  }

  /** Every reachable state whose numbers and keys are within the widths of the fields has bytes on disk that recovery
      starts from, cut off anywhere in the records in flight. */
  lemma ImageExists(states: seq<Db>, steps: seq<Step>, n: nat, k: nat, name: UserKey -> Bytes, mean: Meaning, crc: LF.Checksum, comparator: Bytes)
    returns (rs: seq<Bytes>, xs: seq<VE.Edit>)
    requires Run(states, steps) && n <= k < |states| && (k == n || (k == n + 1 && Applying(states[n], states[k], steps[n])))
    requires DbFits(states[n], name, mean) && DbFits(states[k], name, mean) && |comparator| < 0x1_0000_0000
    ensures var db, later := states[n], states[k];
      (exists file :: MayBeManifest(file, crc, rs, db, later)) &&
      forall file :: MayBeManifest(file, crc, rs, db, later) ==>
        ManifestOnDisk(file, crc, rs, xs, db, later, mean, TablesOf(later.manifest), comparator)
    ensures LogMayExist(states[n], crc, name, mean)
  {
    hide Next, Init, Invariant, Within, DbFits, LF.LogBytes, AreEdits, HasCounters, TablesOf, Applying;
    var db, later := states[n], states[k];
    RunKeepsInvariant(states, steps, n);
    RunKeepsInvariant(states, steps, k);
    RunKeepsWithin(states, steps, k);
    LastFits(db);
    LastFits(later);
    if k == n + 1 { OneEditMore(db, later, steps[n]); }
    forall e | e in later.manifest ensures EditFits(e, name, mean, TablesOf(later.manifest)) { EditsFit(later, name, mean, e); }
    rs, xs := EditsHaveRecords(later.manifest, name, mean, TablesOf(later.manifest), comparator);
    FewerRecords(crc, rs, |db.manifest|);
    assert MayBeManifest(LF.LogBytes(crc, rs), crc, rs, db, later);
    LogExists(db, crc, name, mean);
  }

  lemma FewerRecords(crc: LF.Checksum, rs: seq<Bytes>, n: nat)
    requires n <= |rs|
    ensures LF.LogBytes(crc, rs[..n]) <= LF.LogBytes(crc, rs)
  {
    hide LF.Layout, LF.LogOf;
    LF.LogFits(rs);
    LF.LogFits(rs[..n]);
    LF.LogPrefix(rs, n);
    var a, b := LF.LogOf(rs[..n]), LF.LogOf(rs);
    assert b[..|a|] == a;
    LF.LayoutPrefix(crc, b, |a|);
  }

  /** Some bytes may be the log, and with any that may be there are logs recovery starts from. */
  ghost predicate LogMayExist(db: Db, crc: LF.Checksum, name: UserKey -> Bytes, mean: Meaning) {
    db.mem in db.logs && db.last + 1 < TWO_64 && |GroupOps(db)| < WB.MAX_COUNT &&
    (forall b :: b in db.logs[db.mem] ==> b.start < TWO_64 && |b.ops| < WB.MAX_COUNT) &&
    (exists file :: MayBeLog(file, crc, db, name)) &&
    forall file :: MayBeLog(file, crc, db, name) ==> exists logs :: LogsOnDisk(db, logs, crc, mean) && db.mem in logs && logs[db.mem] == file
  }

  lemma LogExists(db: Db, crc: LF.Checksum, name: UserKey -> Bytes, mean: Meaning)
    requires Invariant(db) && DbFits(db, name, mean)
    ensures LogMayExist(db, crc, name, mean)
  {
    hide Invariant, LF.LogBytes, LogsOnDisk, RecordOf, LogFits, Adds;
    LogsFit(db, name, mean);
    assert MayBeLog(LF.LogBytes(crc, RecordsOf(db.logs[db.mem], name)), crc, db, name) by {
      if db.group.Some? && !db.group.value.logged {
        var rs, r := RecordsOf(db.logs[db.mem], name), RecordOf(Batch(db.last + 1, db.group.value.ops), name);
        FewerRecords(crc, rs + [r], |rs|);
        assert (rs + [r])[..|rs|] == rs;
      }
    }
    forall file | MayBeLog(file, crc, db, name) ensures exists logs :: LogsOnDisk(db, logs, crc, mean) && db.mem in logs && logs[db.mem] == file {
      var logs := LogImage(db, file, crc, name, mean);
    }
  }
}
