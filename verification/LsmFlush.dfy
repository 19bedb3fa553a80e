/** Flushing the immutable memtable, alone or in the middle of a compaction. */
module LsmFlush {
  import opened Keys
  import opened History
  import opened Files
  import opened Ranges
  import opened Builder
  import opened Reads
  import opened Pick
  import opened CompactionWork
  import opened Layout
  import opened Lsm
  import opened LsmInvariant
  import opened LsmWrites

  /** Builder output for an edit whose file numbers are new to each level. */
  lemma EditedLevel(base: seq<File>, e: LevelEdit)
    requires SortedFiles(base) && FreshFor(base, e.added)
    requires e.deleted !! Numbers(e.added)
    ensures SavedFrom(EditLevel(base, e), base, e.added, e.deleted)
  {
    EditLevelSpec(base, e);
    assert e.deleted - Numbers(e.added) == e.deleted;
  }

  lemma UnchangedLevel(base: seq<File>)
    requires SortedFiles(base) && DistinctNumbers(base)
    ensures EditLevel(base, NoChange) == base
  {
    assert base + [] == base;
    EditedLevel(base, NoChange);
    SortedFilesUnique(EditLevel(base, NoChange), base);
  }

  /** The table that a flush writes. */
  lemma FlushedFileIsValid(t: MemTable, h: Log, hi: nat, number: nat, size: nat)
    requires MemOk(t, h, hi) && t.entries != [] && hi < MAX_SEQUENCE
    ensures ValidFile(TableOf(number, size, t.entries))
  {
  }

  lemma FlushedFileIsNewer(t: MemTable, h: Log, hi: nat, v: Version, f: File)
    requires MemOk(t, h, hi) && f.entries == t.entries && WrittenUpTo(v, h, t.after)
    ensures NewerThanVersion(f, v)
  {
    forall l: nat, g | l < |v| && g in v[l] ensures Newer(f, g) {
      forall e, d | e in f.entries && d in g.entries ensures e.key.sn > d.key.sn {
        VersionEntriesUnder(v, l, g, d);
      }
    }
  }

  lemma AddedFileLevels(v: Version, n: nat, e: LoggedEdit, level: nat, f: File)
    requires AllSorted(v) && NumbersOk(v, n) && level < NUM_LEVELS
    requires e.levels == OneLevel(level, LevelEdit({}, [f])) && f.number == n
    ensures WithFile(v, EditVersion(v, e), level, f)
  {
    hide EditLevel, LevelChange, AllSorted, NumbersOk;
    forall l: nat | l < NUM_LEVELS
      ensures LevelChange(v[l], EditVersion(v, e)[l], [], if l == level then [f] else [])
    {
      AddedFileLevel(v, n, l, f, l == level);
    }
  }

  lemma AddedFileLevel(v: Version, n: nat, l: nat, f: File, here: bool)
    requires AllSorted(v) && NumbersOk(v, n) && l < NUM_LEVELS && f.number == n
    ensures LevelChange(v[l], EditLevel(v[l], if here then LevelEdit({}, [f]) else NoChange), [], if here then [f] else [])
  {
    hide EditLevel;
    if here {
      assert f !in v[l];
      EditedLevel(v[l], LevelEdit({}, [f]));
    } else {
      UnchangedLevel(v[l]);
    }
  }

  // ------------------------------------------------------------ one table added

  lemma AddedFileNumbers(v: Version, v': Version, n: nat, level: nat, f: File)
    requires NumbersOk(v, n) && WithFile(v, v', level, f) && f.number == n
    ensures NumbersOk(v', n + 1) && AllSorted(v')
    ensures VersionNumbers(v') <= VersionNumbers(v) + {n}
  {
  }

  lemma AddedFileEntries(v: Version, v': Version, level: nat, f: File)
    requires WithFile(v, v', level, f)
    ensures VersionEntries(v') == VersionEntries(v) + SetOf(f.entries)
  {
    forall e | e in VersionEntries(v) + SetOf(f.entries) ensures e in VersionEntries(v') {
      if e in SetOf(f.entries) {
        assert f in v'[level];
        VersionEntriesUnder(v', level, f, e);
      } else {
        var l: nat, g :| l < |v| && g in v[l] && e in g.entries;
        assert g in v'[l];
        VersionEntriesUnder(v', l, g, e);
      }
    }
    forall e | e in VersionEntries(v') ensures e in VersionEntries(v) + SetOf(f.entries) {
      var l: nat, g :| l < |v'| && g in v'[l] && e in g.entries;
      if g in v[l] { VersionEntriesUnder(v, l, g, e); }
    }
  }

  lemma AddedFileTables(v: Version, v': Version, n: nat, h: Log, lo: nat, hi: nat, level: nat, f: File, t: MemTable)
    requires TablesOk(v, n, lo, h)
    requires WithFile(v, v', level, f) && f.number == n && f.entries == t.entries
    requires ValidFile(f) && FlushLevelOk(v, f.smallest.user, f.largest.user, level)
    requires MemOk(t, h, hi) && t.after == lo
    ensures TablesOk(v', n + 1, hi, h)
  {
    hide VersionOk, FlushLevelOk, VersionEntries, WithFile, NewerThanVersion;
    FlushedFileIsNewer(t, h, hi, v, f);
    FlushKeepsLayout(v, v', level, f);
    AddedFileNumbers(v, v', n, level, f);
    AddedFileEntries(v, v', level, f);
  }

  lemma AddedFileDurable(m: Manifest, v: Version, n: nat, e: LoggedEdit, level: nat, f: File, lo: nat, hi: nat, last: nat,
                         logNumber: nat)
    requires AllSorted(v) && NumbersOk(v, n) && DurableOk(m, v, n, logNumber, lo, last)
    requires e.levels == OneLevel(level, LevelEdit({}, [f])) && f.number == n && level < NUM_LEVELS
    requires e.nextFile == n + 1 && hi <= e.lastSequence <= last
    ensures DurableOk(m + [e], EditVersion(v, e), n + 1, e.logNumber, hi, last)
    ensures forall l: nat :: l < NUM_LEVELS ==> AddedAt(m + [e], l) <= AddedAt(m, l) + {n}
  {
    hide Replay, AddedAt, EditVersion, AddsEachOnce, AddedOk, WithFile, NumbersOk, AllSorted, VersionNumbers;
    var v' := EditVersion(v, e);
    AddedFileLevels(v, n, e, level, f);
    forall l: nat | l < NUM_LEVELS
      ensures EachNumberOnce(e.levels[l].added) && Numbers(e.levels[l].added) !! AddedAt(m, l)
      ensures AddedAt(m + [e], l) == AddedAt(m, l) + (if l == level then {n} else {})
    {
      AddedLevelPart(m, v, n, e, level, f, l);
    }
    ReplayAppend(m, e);
    assert LastEdit(m + [e]) == e;
    AddedFileAdded(m, v, v', n, e, level, f);
  }

  lemma AddedLevelPart(m: Manifest, v: Version, n: nat, e: LoggedEdit, level: nat, f: File, l: nat)
    requires l < NUM_LEVELS && AddedOk(m, v, n) && e.levels == OneLevel(level, LevelEdit({}, [f])) && f.number == n
    ensures EachNumberOnce(e.levels[l].added) && Numbers(e.levels[l].added) !! AddedAt(m, l)
    ensures AddedAt(m + [e], l) == AddedAt(m, l) + (if l == level then {n} else {})
  {
    hide AddedAt, LevelPart, AllAdded, Numbers, VersionNumbers;
    LevelPartAppend(m, e, l);
    OneNumber(f);
    assert n !in AddedAt(m, l);
  }

  lemma OneNumber(f: File)
    ensures Numbers([f]) == {f.number} && Numbers([]) == {}
  {
    assert f in [f];
  }

  lemma AddedFileAdded(m: Manifest, v: Version, v': Version, n: nat, e: LoggedEdit, level: nat, f: File)
    requires AddedOk(m, v, n) && WithFile(v, v', level, f) && NumbersOk(v, n) && f.number == n && level < NUM_LEVELS
    requires forall l: nat :: l < NUM_LEVELS ==> AddedAt(m + [e], l) == AddedAt(m, l) + (if l == level then {n} else {})
    requires forall k :: k in VersionNumbers(v) ==> k < n
    ensures AddedOk(m + [e], v', n + 1) && forall k :: k in VersionNumbers(v') ==> k < n + 1
  {
    hide AddedAt;
  }

  lemma AddedFileJob(j: Job, v: Version, v': Version, m: Manifest, m': Manifest, minLive: nat, n: nat, level: nat, f: File)
    requires JobOk(j, v, m, minLive, n) && VersionOk(v) && NumbersOk(v, n)
    requires WithFile(v, v', level, f) && f.number == n
    requires ValidFile(f) && FlushLevelOk(v, f.smallest.user, f.largest.user, level) && NewerThanVersion(f, v)
    requires forall l: nat :: l < NUM_LEVELS ==> AddedAt(m', l) <= AddedAt(m, l) + {n}
    ensures JobOk(j, v', m', minLive, n + 1)
  {
    hide AddedAt, VersionOk, NoGap, FlushLevelOk, InputsOk, BaseLevel, Newer, WithFile, VersionNumbers, NumbersOk, NewerThanVersion;
    FlushKeepsInputs(v, v', j.level, j.in0, j.in1, level, f);
    forall e | e in InputEntries(j) && BaseLevel(j.version, j.level, e.key.user)
      ensures BaseLevel(v', j.level, e.key.user)
    {
      BaseLevelAfterFlush(j, v, v', level, f, e);
    }
    AddedFileNumbers(v, v', n, level, f);
  }

  /** A table flushed below the outputs of a running compaction holds none of its keys. */
  lemma BaseLevelAfterFlush(j: Job, v: Version, v': Version, level: nat, f: File, e: Entry)
    requires InputsOk(v, j.level, j.in0, j.in1) && NoGap(j.in0 + j.in1) && VersionOk(v)
    requires WithFile(v, v', level, f) && ValidFile(f) && FlushLevelOk(v, f.smallest.user, f.largest.user, level)
    requires e in InputEntries(j) && BaseLevel(v, j.level, e.key.user)
    ensures BaseLevel(v', j.level, e.key.user)
  {
    if level >= j.level + 2 {
      FlushMissesInputs(v, j.level, j.in0, j.in1, level, f);
      var g :| g in j.in0 + j.in1 && e in g.entries;
      EntryInRange(g, e);
    }
  }

  // ------------------------------------------------------------ the step

  lemma FlushKeepsLogNumbers(logs: map<nat, seq<Batch>>, logNumber: nat, n: nat, mem: nat, imm: nat)
    requires LogNumbersOk(logs, logNumber, n, mem, Some(imm)) && imm < mem
    ensures LogNumbersOk(logs, mem, n + 1, mem, None)
  {
  }

  lemma UnchangedVersion(v: Version, n: nat, lo: nat, h: Log, e: LoggedEdit)
    requires TablesOk(v, n, lo, h)
    requires forall l :: 0 <= l < NUM_LEVELS ==> e.levels[l] == NoChange
    ensures EditVersion(v, e) == v
  {
    hide VersionOk, WrittenUpTo;
    forall l: nat | l < NUM_LEVELS ensures EditVersion(v, e)[l] == v[l] { UnchangedLevel(v[l]); }
  }

  lemma LaterTables(v: Version, n: nat, n': nat, lo: nat, hi: nat, h: Log)
    requires TablesOk(v, n, lo, h) && n <= n' && lo <= hi <= |h|
    ensures TablesOk(v, n', hi, h)
  {
    hide VersionOk, AllSorted, VersionEntries;
  }

  lemma UnchangedDurable(m: Manifest, v: Version, n: nat, e: LoggedEdit, lo: nat, hi: nat, last: nat, logNumber: nat)
    requires DurableOk(m, v, n, logNumber, lo, last)
    requires forall l :: 0 <= l < NUM_LEVELS ==> e.levels[l] == NoChange
    requires n <= e.nextFile && hi <= e.lastSequence <= last
    ensures DurableOk(m + [e], v, e.nextFile, e.logNumber, hi, last)
    ensures forall l: nat :: l < NUM_LEVELS ==> AddedAt(m + [e], l) == AddedAt(m, l)
  {
    hide Replay, AddedAt, AddsEachOnce, VersionNumbers;
    NoChangeReplays(m, e);
    assert LastEdit(m + [e]) == e;
  }

  lemma UnchangedJob(j: Job, v: Version, m: Manifest, m': Manifest, minLive: nat, n: nat, n': nat)
    requires JobOk(j, v, m, minLive, n) && n <= n'
    requires forall l: nat :: l < NUM_LEVELS ==> AddedAt(m', l) == AddedAt(m, l)
    ensures JobOk(j, v, m', minLive, n')
  {
    hide InputsOk, NoGap, BaseLevel, AddedAt, VersionNumbers;
  }

  /** The log of the flushed memtable is let go; what stays holds everything unflushed. */
  lemma FlushKeepsLogs(db: Db)
    requires Invariant(db) && db.imm.Some?
    ensures LogNumbersOk(db.logs, db.mem, db.nextFile + 1, db.mem, None)
    ensures LogsOk(db.logs, db.tables, db.mem, None, db.hist, Logged(db))
    ensures MemTablesOk(db.tables, db.mem, None, Full(db), db.last, db.last + Inserted(db))
    ensures MemOk(db.tables[db.imm.value], db.hist, db.tables[db.mem].after)
    ensures db.tables[db.imm.value].after <= db.tables[db.mem].after <= |db.hist|
  {
    hide TablesOk, DurableOk, JobOk, SnapshotsOk, LogHolds, VersionNumbers;
    FlushKeepsLogNumbers(db.logs, db.logNumber, db.nextFile, db.mem, db.imm.value);
    forall i | 1 <= i <= |db.hist| ensures EntryOf(Full(db), i) == EntryOf(db.hist, i) {
    }
  }

  /** Flushing an empty memtable only lets its log go. */
  lemma EmptyFlushKeeps(db: Db, db': Db, level: nat, size: nat, last: nat)
    requires Invariant(db) && Next(db, db', Flush(level, size, last)) && Entries(db.tables, db.imm) == []
    ensures Invariant(db') && (ReadsOk(db) ==> ReadsOk(db'))
  {
    hide TablesOk, DurableOk, JobOk, SnapshotsOk, LogHolds, LogNumbersOk, LogsOk, MemTablesOk, MemOk, Get, Lookup, View,
      EntryOf, VersionEntries, ReaderRight, Agrees, FlushLevelOk, OutputsOf, Recovers, InputsOk, NoGap, Replay,
      AddsEachOnce, EditVersion, AddedAt, VersionNumbers;
    var lo, hi := FlushedTo(db), db.tables[db.mem].after;
    var e := FlushEdit(db, level, size, last);
    FlushKeepsLogs(db);
    UnchangedVersion(db.version, db.nextFile, lo, db.hist, e);
    LaterTables(db.version, db.nextFile, db.nextFile + 1, lo, hi, db.hist);
    UnchangedDurable(db.manifest, db.version, db.nextFile, e, lo, hi, db.last, db.logNumber);
    if db.job.Some? {
      UnchangedJob(db.job.value, db.version, db.manifest, db'.manifest, MinLive(db), db.nextFile, db.nextFile + 1);
    }
    assert All(db') == All(db);
  }

  /** Flushing moves the immutable memtable's entries into a table: nothing is lost, nothing appears. */
  lemma FlushKeeps(db: Db, db': Db, level: nat, size: nat, last: nat)
    requires Invariant(db) && Next(db, db', Flush(level, size, last)) && Entries(db.tables, db.imm) != []
    ensures Invariant(db') && (ReadsOk(db) ==> ReadsOk(db'))
  {
    hide TablesOk, DurableOk, JobOk, SnapshotsOk, LogHolds, LogNumbersOk, LogsOk, MemTablesOk, MemOk, Get, Lookup, View,
      EntryOf, VersionEntries, ReaderRight, Agrees, FlushLevelOk, OutputsOf, Recovers, InputsOk, NoGap, Replay,
      AddsEachOnce, EditVersion, AddedAt, VersionNumbers, VersionOk, WithFile, NewerThanVersion, NumbersOk, AllSorted;
    var lo, hi, t := FlushedTo(db), db.tables[db.mem].after, db.tables[db.imm.value];
    var f := TableOf(db.nextFile, size, t.entries);
    var e := FlushEdit(db, level, size, last);
    FlushKeepsLogs(db);
    FlushedFileIsValid(t, db.hist, hi, db.nextFile, size);
    AddedFileInTables(db, e, level, f, t, hi);
    AddedFileDurable(db.manifest, db.version, db.nextFile, e, level, f, lo, hi, db.last, db.logNumber);
    AddedFileEntries(db.version, db'.version, level, f);
    AddedFileNumbers(db.version, db'.version, db.nextFile, level, f);
    if db.job.Some? {
      AddedFileJob(db.job.value, db.version, db'.version, db.manifest, db'.manifest, MinLive(db), db.nextFile, level, f);
    }
    assert All(db') == All(db);
  }

  lemma AddedFileInTables(db: Db, e: LoggedEdit, level: nat, f: File, t: MemTable, hi: nat)
    requires Invariant(db) && level < NUM_LEVELS
    requires e.levels == OneLevel(level, LevelEdit({}, [f])) && f.number == db.nextFile && f.entries == t.entries
    requires ValidFile(f) && FlushLevelOk(db.version, f.smallest.user, f.largest.user, level)
    requires MemOk(t, db.hist, hi) && t.after == FlushedTo(db)
    ensures var v' := EditVersion(db.version, e);
      WithFile(db.version, v', level, f) && TablesOk(v', db.nextFile + 1, hi, db.hist)
    ensures VersionOk(db.version) && NumbersOk(db.version, db.nextFile) && AllSorted(db.version) &&
      NewerThanVersion(f, db.version)
  {
    hide DurableOk, JobOk, SnapshotsOk, LogsOk, LogNumbersOk, MemTablesOk, MemOk, VersionNumbers, VersionOk, FlushLevelOk,
      WithFile, NewerThanVersion, NumbersOk, AllSorted;
    AddedFileLevels(db.version, db.nextFile, e, level, f);
    FlushedFileIsNewer(t, db.hist, hi, db.version, f);
    AddedFileTables(db.version, EditVersion(db.version, e), db.nextFile, db.hist, FlushedTo(db), hi, level, f, t);
  }
}
