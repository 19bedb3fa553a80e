/** The invariant of the database and what it means for reads. */
module LsmInvariant {
  import opened Keys
  import opened History
  import opened Files
  import opened Ranges
  import opened Builder
  import opened Reads
  import opened Pick
  import opened CompactionWork
  import opened Lsm

  /** Sequence numbers, the group in flight, and the memtables that exist. */
  ghost predicate Basics(db: Db) {
    db.last == |db.hist| && db.last + |GroupOps(db)| < MAX_SEQUENCE &&
    db.mem in db.tables && db.mem in db.logs && (forall k :: k in db.tables ==> k < db.nextFile) &&
    (db.imm.Some? ==> db.imm.value in db.tables && db.imm.value in db.logs && db.imm.value < db.mem) &&
    (db.group.Some? ==> Inserted(db) <= |GroupOps(db)| && (Inserted(db) > 0 ==> db.group.value.logged))
  }

  /** Each memtable holds one stretch of the history, the mutable one up to hi. */
  ghost predicate MemTablesOk(tables: map<nat, MemTable>, mem: nat, imm: Option<nat>, full: Log, last: nat, hi: nat) {
    mem in tables && (imm.Some? ==> imm.value in tables) &&
    MemOk(tables[mem], full, hi) && tables[mem].after <= last &&
    (imm.Some? ==> MemOk(tables[imm.value], full, tables[mem].after))
  }

  /** No number is used by two files, and numbers come from below n. */
  ghost predicate NumbersOk(v: Version, n: nat)
  {
    (forall a: nat, b: nat, f, g :: a < NUM_LEVELS && b < NUM_LEVELS && f in v[a] && g in v[b] && f.number == g.number ==>
      a == b && f == g) &&
    forall l: nat, f :: l < NUM_LEVELS && f in v[l] ==> f.number < n
  }

  ghost predicate AllSorted(v: Version)
  {
    forall l: nat :: l < NUM_LEVELS ==> SortedFiles(v[l])
  }

  ghost predicate WrittenUpTo(v: Version, h: Log, hi: nat) {
    forall e :: e in VersionEntries(v) ==> e.key.sn <= hi && WrittenBy(e, h)
  }

  ghost predicate TablesOk(v: Version, n: nat, flushed: nat, h: Log) {
    VersionOk(v) && AllSorted(v) && NumbersOk(v, n) && flushed <= |h| && WrittenUpTo(v, h, flushed)
  }

  /** File numbers ever added stay below n, and a file never rises above a level it was added to. */
  ghost predicate AddedOk(m: Manifest, v: Version, n: nat)
  {
    (forall l: nat, k :: l < NUM_LEVELS && k in AddedAt(m, l) ==> k < n) &&
    forall l: nat, c: nat, f :: l < NUM_LEVELS && c < NUM_LEVELS && f in v[c] && f.number in AddedAt(m, l) ==> l <= c
  }

  /** The manifest replays to the current version and its last record holds usable counters. */
  ghost predicate DurableOk(m: Manifest, v: Version, n: nat, logNumber: nat, flushed: nat, last: nat)
  {
    m != [] && AddsEachOnce(m) && Replay(m) == v && AddedOk(m, v, n) &&
    var e := LastEdit(m);
    e.logNumber == logNumber && e.nextFile <= n && flushed <= e.lastSequence <= last &&
    forall k :: k in VersionNumbers(v) ==> k < e.nextFile
  }

  /** A log holds the stretch of history its memtable was made from. */
  ghost predicate LogHolds(bs: seq<Batch>, h: Log, a: nat, b: nat) {
    a <= b <= |h| && Contiguous(bs, a) && Ops(bs) == h[a..b]
  }

  /** The logs recovery would read are those of the memtables. */
  ghost predicate LogNumbersOk(logs: map<nat, seq<Batch>>, logNumber: nat, n: nat, mem: nat, imm: Option<nat>) {
    logNumber == (if imm.Some? then imm.value else mem) &&
    forall k :: k in logs ==> k < n && (k >= logNumber <==> k == mem || imm == Some(k))
  }

  /** The logs of the memtables hold all that is acknowledged but not flushed, and the logged group. */
  ghost predicate LogsOk(logs: map<nat, seq<Batch>>, tables: map<nat, MemTable>, mem: nat, imm: Option<nat>,
                         h: Log, logged: Log) {
    mem in logs && mem in tables && (imm.Some? ==> imm.value in logs && imm.value in tables) &&
    LogHolds(logs[mem], h + logged, tables[mem].after, |h + logged|) &&
    (imm.Some? ==> LogHolds(logs[imm.value], h, tables[imm.value].after, tables[mem].after))
  }

  ghost predicate SnapshotsOk(snapshots: seq<nat>, last: nat) {
    (forall i, j :: 0 <= i < j < |snapshots| ==> snapshots[i] <= snapshots[j]) &&
    forall s :: s in snapshots ==> s <= last
  }

  /** What a compaction in progress relies on, whatever was flushed since it started. */
  ghost predicate JobOk(j: Job, v: Version, m: Manifest, minLive: nat, n: nat) {
    InputsOk(v, j.level, j.in0, j.in1) && NoGap(j.in0 + j.in1) && j.snap <= minLive &&
    (forall e :: e in InputEntries(j) && BaseLevel(j.version, j.level, e.key.user) ==> BaseLevel(v, j.level, e.key.user)) &&
    (forall k :: k in j.pending ==> k < n && k !in VersionNumbers(v)) &&
    forall l: nat, k :: l < NUM_LEVELS && k in AddedAt(m, l) ==> k !in j.pending
  }

  ghost predicate Invariant(db: Db) {
    Basics(db) &&
    MemTablesOk(db.tables, db.mem, db.imm, Full(db), db.last, db.last + Inserted(db)) &&
    TablesOk(db.version, db.nextFile, FlushedTo(db), db.hist) &&
    DurableOk(db.manifest, db.version, db.nextFile, db.logNumber, FlushedTo(db), db.last) &&
    LogNumbersOk(db.logs, db.logNumber, db.nextFile, db.mem, db.imm) &&
    LogsOk(db.logs, db.tables, db.mem, db.imm, db.hist, Logged(db)) &&
    SnapshotsOk(db.snapshots, db.last) &&
    (db.job.Some? ==> JobOk(db.job.value, db.version, db.manifest, MinLive(db), db.nextFile)) &&
    LiveFiles(db.version, db.readers, db.job) <= db.files
  }

  /** The counters of the state itself are good ones for an edit. */
  lemma NowIsOk(db: Db)
    requires Invariant(db)
    ensures MarksOk(db, Now(db))
  {
    hide TablesOk, LogsOk, SnapshotsOk, AddsEachOnce, AddedOk, Replay, InputsOk, NoGap, BaseLevel, MemOk, VersionNumbers, LiveFiles;
  }

  /** c shows what the history holds at every sequence number from lo to hi. */
  ghost predicate Agrees(c: set<Entry>, h: Log, lo: nat, hi: nat) {
    hi <= |h| && forall u, s: nat :: lo <= s <= hi ==> View(c, u, s) == Lookup(h, u, s)
  }

  /** Every sequence number a read may use sees exactly the flat history. */
  ghost predicate ReadsRight(db: Db) {
    Agrees(All(db), db.hist, MinLive(db), db.last)
  }

  /** What a read in progress finds for u. */
  function GetBy(r: Reader, tables: map<nat, MemTable>, u: UserKey): Option<string> {
    Get(Entries(tables, Some(r.mem)), Entries(tables, r.imm), r.version, u, r.snapshot)
  }

  /** A read in progress will find what the history held at its snapshot. */
  ghost predicate ReaderRight(r: Reader, tables: map<nat, MemTable>, h: Log) {
    r.snapshot <= |h| && r.mem in tables && (r.imm.Some? ==> r.imm.value in tables) &&
    forall u :: GetBy(r, tables, u) == Lookup(h, u, r.snapshot)
  }

  ghost predicate ReadersRight(db: Db) {
    forall r :: r in db.readers ==> ReaderRight(r, db.tables, db.hist)
  }

  // ------------------------------------------------------------ consequences

  /** Memtable, immutable memtable and version hold successive stretches of the history. */
  lemma LayersAreOrdered(db: Db)
    requires Invariant(db)
    ensures AllWrittenBy(All(db), Full(db))
    ensures NewerThanAll(Entries(db.tables, db.imm), VersionEntries(db.version))
    ensures NewerThanAll(Entries(db.tables, Some(db.mem)),
                         (set e | e in Entries(db.tables, db.imm)) + VersionEntries(db.version))
    ensures Sorted(Entries(db.tables, Some(db.mem))) && Sorted(Entries(db.tables, db.imm))
  {
    hide DurableOk, JobOk, VersionNumbers, LogHolds, LogNumbersOk, VersionOk, NumbersOk, AllSorted, VersionEntries, InputsOk;
    forall e | e in VersionEntries(db.version) ensures WrittenBy(e, Full(db)) {
      assert WrittenBy(e, db.hist);
    }
  }

  /** DBImpl::Get at sequence number s returns the view of all the database holds. */
  lemma GetIsViewOfAll(db: Db, u: UserKey, s: nat)
    requires Invariant(db)
    ensures Get(Entries(db.tables, Some(db.mem)), Entries(db.tables, db.imm), db.version, u, s) == View(All(db), u, s)
  {
    hide DurableOk, JobOk, VersionNumbers, LogHolds, LogNumbersOk, VersionOk, NumbersOk, AllSorted, InputsOk, MemOk, Get, View;
    LayersAreOrdered(db);
    GetIsView(Entries(db.tables, Some(db.mem)), Entries(db.tables, db.imm), db.version, Full(db), u, s);
  }

  /** Reads at the latest sequence number or at a live snapshot return the newest write the flat
      history has at that point, or nothing if that write is a deletion. */
  lemma ReadsSeeHistory(db: Db, u: UserKey, s: nat)
    requires Invariant(db) && ReadsRight(db)
    requires s == db.last || s in db.snapshots
    ensures s <= |db.hist|
    ensures Get(Entries(db.tables, Some(db.mem)), Entries(db.tables, db.imm), db.version, u, s)
         == Lookup(db.hist, u, s)
  {
    GetIsViewOfAll(db, u, s);
    MinLiveIsLeast(db);
  }

  lemma MinLiveIsLeast(db: Db)
    requires SnapshotsOk(db.snapshots, db.last)
    ensures MinLive(db) <= db.last && forall s :: s in db.snapshots ==> MinLive(db) <= s
  {
    if db.snapshots != [] { assert db.snapshots[0] in db.snapshots; }
  }

  lemma VersionEntriesUnder(v: Version, l: nat, f: File, e: Entry)
    requires l < |v| && f in v[l] && e in f.entries
    ensures e in VersionEntries(v)
  {
  }

  /** An edit that changes no level leaves the replayed version alone. */
  lemma NoChangeReplays(m: Manifest, e: LoggedEdit)
    requires AddsEachOnce(m)
    requires forall l :: 0 <= l < NUM_LEVELS ==> e.levels[l] == NoChange
    ensures AddsEachOnce(m + [e]) && Replay(m + [e]) == Replay(m)
    ensures forall l: nat :: l < NUM_LEVELS ==> AddedAt(m + [e], l) == AddedAt(m, l)
  {
    ReplayAppend(m, e);
    forall l: nat | l < NUM_LEVELS
      ensures EditLevel(Replay(m)[l], e.levels[l]) == Replay(m)[l] && AddedAt(m + [e], l) == AddedAt(m, l)
    {
      LevelPartAppend(m, e, l);
      ReplayHolds(m, l);
      assert Replay(m)[l] + [] == Replay(m)[l];
      EditLevelSpec(Replay(m)[l], NoChange);
      SortedFilesUnique(EditLevel(Replay(m)[l], NoChange), Replay(m)[l]);
    }
  }

  lemma InitDurable(db: Db)
    requires Init(db)
    ensures AddsEachOnce(db.manifest) && Replay(db.manifest) == EmptyVersion
    ensures forall l: nat :: l < NUM_LEVELS ==> AddedAt(db.manifest, l) == {}
  {
    SnapshotReplays(EmptyVersion, 0, 2, 0);
    var m: Manifest := [Snapshot(EmptyVersion, 0, 2, 0)];
    NoChangeReplays(m, db.manifest[1]);
    assert db.manifest == m + [db.manifest[1]];
  }

  lemma InitTables(db: Db)
    requires Init(db)
    ensures Basics(db) && TablesOk(db.version, db.nextFile, FlushedTo(db), db.hist)
    ensures VersionNumbers(db.version) == {} && All(db) == {}
  {
    hide VersionEntries, VersionNumbers, VersionOk, AllSorted;
    assert forall l: nat :: l < NUM_LEVELS ==> db.version[l] == [];
    NothingInVersion(db.version);
  }

  lemma NothingInVersion(v: Version)
    requires forall l: nat :: l < NUM_LEVELS ==> v[l] == []
    ensures VersionNumbers(v) == {} && VersionEntries(v) == {} && VersionOk(v) && AllSorted(v)
  {
    hide Newer, Before, ValidFile;
  }

  lemma InitReads(db: Db)
    requires Init(db) && All(db) == {}
    ensures ReadsRight(db) && ReadersRight(db)
  {
    hide All, ReaderRight;
    forall u, s: nat | s <= 0 ensures View(All(db), u, s) == Lookup(db.hist, u, s) {
      NothingIsUnique(All(db), u, s);
    }
  }

  /** The initial database satisfies the invariant and has nothing to read. */
  lemma InitOk(db: Db)
    requires Init(db)
    ensures Invariant(db) && ReadsRight(db) && ReadersRight(db)
  {
    hide TablesOk, Basics, Replay, AddsEachOnce, AddedAt, VersionEntries, View, ReadsRight, ReadersRight, JobOk;
    InitTables(db);
    InitDurable(db);
    InitReads(db);
    assert db.hist + Logged(db) == [] == Full(db);
  }
}
