/** Steps that leave the version alone: group writes, memtable switch, snapshots, reads, file removal. */
module LsmWrites {
  import opened Keys
  import opened History
  import opened Files
  import opened Ranges
  import opened Builder
  import opened Reads
  import opened Pick
  import opened CompactionWork
  import opened Lsm
  import opened LsmInvariant

  /** Every read that is allowed, finished or in progress, agrees with the history. */
  ghost predicate ReadsOk(db: Db) {
    ReadsRight(db) && ReadersRight(db)
  }

  ghost predicate Good(db: Db) {
    Invariant(db) && ReadsOk(db)
  }

  // ------------------------------------------------------------ group commit

  lemma MemOkExtends(t: MemTable, h: Log, more: Log, hi: nat)
    requires MemOk(t, h, hi)
    ensures MemOk(t, h + more, hi)
  {
    forall i | 1 <= i <= |h| ensures EntryOf(h + more, i) == EntryOf(h, i) {
    }
  }

  lemma BeginGroupKeeps(db: Db, db': Db, ops: Log)
    requires Invariant(db) && Next(db, db', BeginGroup(ops))
    ensures Invariant(db') && (ReadsOk(db) ==> ReadsOk(db'))
  {
    hide TablesOk, DurableOk, JobOk, SnapshotsOk, MemOk, Get, Lookup, View, Contents, EntryOf, VersionNumbers, LogHolds,
      LogNumbersOk, FlushLevelOk, OutputsOf, Recovers, InputsOk, NoGap;
    assert Full(db) == db.hist && db.hist + Logged(db) == db.hist + [] == db.hist;
    MemOkExtends(db.tables[db.mem], db.hist, ops, db.last);
    if db.imm.Some? { MemOkExtends(db.tables[db.imm.value], db.hist, ops, db.tables[db.mem].after); }
  }

  lemma StretchGrows(h: Log, more: Log, a: nat)
    requires a <= |h|
    ensures (h + more)[a..|h + more|] == h[a..|h|] + more
  {
  }

  /** A record that starts right after the log's last operation keeps the log contiguous. */
  lemma LogHoldsMore(bs: seq<Batch>, h: Log, more: Log, a: nat)
    requires LogHolds(bs, h, a, |h|)
    ensures LogHolds(bs + [Batch(|h| + 1, more)], h + more, a, |h + more|)
  {
    var b := Batch(|h| + 1, more);
    var r := bs + [b];
    assert r[..|r| - 1] == bs;
    StretchGrows(h, more, a);
    forall i | 0 <= i < |r| ensures r[i].start == a + |Ops(r[..i])| + 1 {
      if i < |bs| { assert r[..i] == bs[..i]; }
    }
  }

  lemma LogGroupKeeps(db: Db, db': Db)
    requires Invariant(db) && Next(db, db', LogGroup)
    ensures Invariant(db') && (ReadsOk(db) ==> ReadsOk(db'))
  {
    hide TablesOk, DurableOk, JobOk, SnapshotsOk, MemOk, Get, Lookup, View, Contents, EntryOf, VersionNumbers, LogHolds,
      FlushLevelOk, OutputsOf, Recovers, InputsOk, NoGap;
    assert db.hist + Logged(db) == db.hist;
    LogHoldsMore(db.logs[db.mem], db.hist, GroupOps(db), db.tables[db.mem].after);
    assert LogsOk(db'.logs, db'.tables, db'.mem, db'.imm, db'.hist, Logged(db'));
  }

  /** A memtable gains the next write of the group. */
  lemma InsertKeepsMem(t: MemTable, h: Log, hi: nat)
    requires MemOk(t, h, hi) && hi < |h|
    ensures MemOk(t.(entries := Insert(t.entries, EntryOf(h, hi + 1))), h, hi + 1)
    ensures forall x :: x in Insert(t.entries, EntryOf(h, hi + 1)) <==> x in t.entries || x == EntryOf(h, hi + 1)
  {
    hide Insert, Sorted, EntryOf;
    var e := EntryOf(h, hi + 1);
    EntryNumber(h, hi + 1);
    assert forall x :: x in t.entries ==> x.key.sn <= hi;
    InsertIsSorted(t.entries, e);
  }

  lemma EntryNumber(h: Log, i: nat)
    requires 1 <= i <= |h|
    ensures EntryOf(h, i).key.sn == i && WrittenBy(EntryOf(h, i), h)
  {
  }

  /** An insertion newer than the snapshot does not change what a probe finds. */
  lemma ProbeIgnoresNewer(t: MemTable, h: Log, hi: nat, u: UserKey, s: nat)
    requires MemOk(t, h, hi) && s <= hi < |h|
    ensures Probe(Insert(t.entries, EntryOf(h, hi + 1)), u, s) == Probe(t.entries, u, s)
  {
    hide Probe, Insert;
    var e := EntryOf(h, hi + 1);
    var r := Insert(t.entries, e);
    InsertKeepsMem(t, h, hi);
    ProbeFindsNewest(t.entries, u, s);
    ProbeFindsNewest(r, u, s);
    var p, q := Probe(t.entries, u, s), Probe(r, u, s);
    if p.Some? { assert p.value in r && WrittenBy(p.value, h) && WrittenBy(q.value, h); }
  }

  /** A read in progress is not disturbed by an insertion newer than its snapshot. */
  lemma InsertKeepsReader(tables: map<nat, MemTable>, mem: nat, h: Log, hist: Log, hi: nat, r: Reader)
    requires mem in tables && MemOk(tables[mem], h, hi) && |hist| <= hi < |h| && ReaderRight(r, tables, hist)
    ensures ReaderRight(r, tables[mem := tables[mem].(entries := Insert(tables[mem].entries, EntryOf(h, hi + 1)))], hist)
  {
    hide MemOk, EntryOf, Insert, Probe, VersionGet, Lookup;
    var tables' := tables[mem := tables[mem].(entries := Insert(tables[mem].entries, EntryOf(h, hi + 1)))];
    forall u ensures GetBy(r, tables', u) == Lookup(hist, u, r.snapshot) {
      assert GetBy(r, tables, u) == Lookup(hist, u, r.snapshot);
      ProbeIgnoresNewer(tables[mem], h, hi, u, r.snapshot);
    }
  }

  /** Inserting one operation changes no allowed read: its sequence number is not published yet. */
  lemma InsertKeepsReads(mem: MemTable, imm: seq<Entry>, v: Version, h: Log, hist: Log, hi: nat, lo: nat, last: nat)
    requires MemOk(mem, h, hi) && last <= hi < |h| && AllWrittenBy(Contents(mem.entries, imm, v), h)
    requires Agrees(Contents(mem.entries, imm, v), hist, lo, last)
    ensures Agrees(Contents(Insert(mem.entries, EntryOf(h, hi + 1)), imm, v), hist, lo, last)
  {
    hide View, Lookup, VersionEntries, Insert;
    var e := EntryOf(h, hi + 1);
    InsertKeepsMem(mem, h, hi);
    var c, c' := Contents(mem.entries, imm, v), Contents(Insert(mem.entries, e), imm, v);
    assert c' == c + {e};
    forall u, s: nat | lo <= s <= last ensures View(c', u, s) == View(c, u, s) {
      ViewIgnoresNewer(c, c', h, u, s);
    }
  }

  lemma InsertNextKeeps(db: Db, db': Db)
    requires Invariant(db) && Next(db, db', InsertNext)
    ensures Invariant(db') && (ReadsOk(db) ==> ReadsOk(db'))
  {
    hide TablesOk, DurableOk, JobOk, SnapshotsOk, MemOk, Get, Lookup, View, Contents, EntryOf, VersionNumbers, LogHolds,
      LogNumbersOk, AllWrittenBy, Agrees, ReaderRight, Insert, FlushLevelOk, OutputsOf, Recovers, InputsOk, NoGap;
    LayersAreOrdered(db);
    var t, hi := db.tables[db.mem], db.last + Inserted(db);
    assert Full(db') == Full(db) && db.imm != Some(db.mem);
    InsertKeepsMem(t, Full(db), hi);
    if ReadsOk(db) {
      InsertKeepsReads(t, Entries(db.tables, db.imm), db.version, Full(db), db.hist, hi, MinLive(db), db.last);
      forall r | r in db'.readers ensures ReaderRight(r, db'.tables, db'.hist) {
        InsertKeepsReader(db.tables, db.mem, Full(db), db.hist, hi, r);
      }
    }
  }

  /** Publishing the new last sequence number makes the whole group visible at once. */
  lemma CommitKeepsReads(db: Db, db': Db)
    requires Good(db) && Next(db, db', CommitGroup)
    ensures ReadsRight(db')
  {
    hide DurableOk, JobOk, Get, View, Lookup, VersionEntries, VersionNumbers, LogHolds, LogNumbersOk, ReaderRight, VersionOk,
      NumbersOk, AllSorted, AllWrittenBy, FlushLevelOk, OutputsOf, Recovers, InputsOk, NoGap;
    LayersAreOrdered(db);
    var c, h := All(db), Full(db);
    assert All(db') == c && db'.hist == h;
    MinLiveIsLeast(db);
    forall u, s: nat | MinLive(db') <= s <= db'.last ensures View(c, u, s) == Lookup(h, u, s) {
      if s <= db.last {
        LookupIgnoresLaterWrites(db.hist, GroupOps(db), u, s);
      } else {
        LookupIgnoresLaterWrites(db.hist, GroupOps(db), u, db.last);
        assert View(c, u, db.last) == Lookup(db.hist, u, db.last);
        ViewFollowsHistory(c, h, u, db.last, s);
      }
    }
  }

  lemma WrittenUpToExtends(v: Version, h: Log, more: Log, hi: nat)
    requires WrittenUpTo(v, h, hi)
    ensures WrittenUpTo(v, h + more, hi)
  {
    forall e | e in VersionEntries(v) ensures WrittenBy(e, h + more) { assert WrittenBy(e, h); }
  }

  lemma HistoryGrowsUnderReader(r: Reader, tables: map<nat, MemTable>, h: Log, more: Log)
    requires ReaderRight(r, tables, h)
    ensures ReaderRight(r, tables, h + more)
  {
    hide GetBy, Lookup;
    forall u ensures GetBy(r, tables, u) == Lookup(h + more, u, r.snapshot) {
      LookupIgnoresLaterWrites(h, more, u, r.snapshot);
    }
  }

  lemma LaterMinLive(j: Job, v: Version, m: Manifest, a: nat, b: nat, n: nat)
    requires JobOk(j, v, m, a, n) && a <= b
    ensures JobOk(j, v, m, b, n)
  {
  }

  lemma TablesOfLonger(v: Version, n: nat, flushed: nat, h: Log, more: Log)
    requires TablesOk(v, n, flushed, h)
    ensures TablesOk(v, n, flushed, h + more)
  {
    hide VersionOk, AllSorted, NumbersOk, WrittenUpTo;
    WrittenUpToExtends(v, h, more, flushed);
  }

  lemma LaterLast(db: Db, last: nat)
    requires Invariant(db) && db.last <= last
    ensures DurableOk(db.manifest, db.version, db.nextFile, db.logNumber, FlushedTo(db), last) && SnapshotsOk(db.snapshots, last)
    ensures MemTablesOk(db.tables, db.mem, db.imm, Full(db), last, db.last + Inserted(db))
  {
    hide AddsEachOnce, Replay, AddedOk, VersionNumbers, TablesOk, LogsOk, LogNumbersOk, JobOk, MemOk, LiveFiles;
  }

  /** The logged group becomes history. */
  lemma LoggedIsHistory(logs: map<nat, seq<Batch>>, tables: map<nat, MemTable>, mem: nat, imm: Option<nat>, h: Log, logged: Log)
    requires LogsOk(logs, tables, mem, imm, h, logged)
    ensures LogsOk(logs, tables, mem, imm, h + logged, [])
  {
    hide Contiguous, Ops;
    assert h + logged + [] == h + logged;
    if imm.Some? {
      var a, b := tables[imm.value].after, tables[mem].after;
      assert h[a..b] == (h + logged)[a..b];
    }
  }

  lemma CommitGroupKeeps(db: Db, db': Db)
    requires Invariant(db) && Next(db, db', CommitGroup)
    ensures Invariant(db') && (ReadsOk(db) ==> ReadsOk(db'))
  {
    hide JobOk, MemOk, Get, Lookup, View, VersionNumbers, LogNumbersOk, ReaderRight, TablesOk, MemTablesOk, DurableOk, LogsOk, SnapshotsOk,
      LiveFiles, ReadsRight, FlushLevelOk, OutputsOf, Recovers, InputsOk, NoGap;
    var ops := GroupOps(db);
    if ReadsOk(db) {
      CommitKeepsReads(db, db');
      forall r | r in db'.readers ensures ReaderRight(r, db'.tables, db'.hist) {
        HistoryGrowsUnderReader(r, db.tables, db.hist, ops);
      }
    }
    assert db'.hist == Full(db) == Full(db') == db.hist + ops && Logged(db) == ops && Logged(db') == [];
    TablesOfLonger(db.version, db.nextFile, FlushedTo(db), db.hist, ops);
    LaterLast(db, db'.last);
    LoggedIsHistory(db.logs, db.tables, db.mem, db.imm, db.hist, ops);
    LaterSnapshots(db, db');
  }

  lemma LaterSnapshots(db: Db, db': Db)
    requires Invariant(db) && db'.snapshots == db.snapshots && db.last <= db'.last
    ensures MinLive(db) <= MinLive(db')
    ensures db.job.Some? ==> JobOk(db.job.value, db.version, db.manifest, MinLive(db'), db.nextFile)
  {
    hide TablesOk, MemTablesOk, DurableOk, LogsOk, LogNumbersOk, SnapshotsOk, LiveFiles, VersionNumbers, InputsOk,
      NoGap, BaseLevel, InputEntries, AddedAt;
    if db.job.Some? { LaterMinLive(db.job.value, db.version, db.manifest, MinLive(db), MinLive(db'), db.nextFile); }
  }

  // ------------------------------------------------------------ memtable switch

  lemma LaterNextFile(db: Db, n: nat)
    requires Invariant(db) && db.nextFile <= n
    ensures TablesOk(db.version, n, FlushedTo(db), db.hist)
    ensures DurableOk(db.manifest, db.version, n, db.logNumber, FlushedTo(db), db.last)
    ensures db.job.Some? ==> JobOk(db.job.value, db.version, db.manifest, MinLive(db), n)
  {
    hide VersionOk, AllSorted, WrittenUpTo, AddsEachOnce, InputsOk, NoGap, BaseLevel;
  }

  /** A fresh, empty memtable takes over; the old one becomes the immutable one. */
  lemma SwitchKeepsLogs(logs: map<nat, seq<Batch>>, tables: map<nat, MemTable>, mem: nat, n: nat, h: Log)
    requires LogsOk(logs, tables, mem, None, h, []) && n !in logs && n !in tables
    ensures LogsOk(logs[n := []], tables[n := MemTable([], |h|)], n, Some(mem), h, [])
  {
    assert h + [] == h && h[|h|..|h|] == [];
  }

  lemma SwitchKeepsMemTables(tables: map<nat, MemTable>, mem: nat, n: nat, h: Log)
    requires MemTablesOk(tables, mem, None, h, |h|, |h|) && n !in tables
    ensures MemTablesOk(tables[n := MemTable([], |h|)], n, Some(mem), h, |h|, |h|)
  {
  }

  lemma SwitchIsFresh(db: Db)
    requires Invariant(db)
    ensures db.nextFile !in db.tables && db.nextFile !in db.logs
  {
    hide TablesOk, DurableOk, JobOk, SnapshotsOk, MemTablesOk, LogsOk, LiveFiles;
  }

  lemma SwitchKeepsReads(db: Db, db': Db)
    requires Invariant(db) && db.imm.None? && db.group.None? && db' == SwitchOp(db) && db.nextFile !in db.tables
    ensures ReadsOk(db) ==> ReadsOk(db')
  {
    hide TablesOk, DurableOk, JobOk, SnapshotsOk, MemTablesOk, LogsOk, LiveFiles, VersionEntries, Agrees, Get, Lookup;
    assert All(db') == All(db);
    if ReadsOk(db) {
      forall r | r in db'.readers ensures ReaderRight(r, db'.tables, db'.hist) { assert ReaderRight(r, db.tables, db.hist); }
    }
  }

  lemma SwitchKeeps(db: Db, db': Db)
    requires Invariant(db) && Next(db, db', SwitchMemTable)
    ensures Invariant(db') && (ReadsOk(db) ==> ReadsOk(db'))
  {
    hide TablesOk, DurableOk, JobOk, SnapshotsOk, MemTablesOk, LogsOk, LiveFiles, All, ReadsRight, ReadersRight, MemOk, Get, Lookup, View, EntryOf, VersionNumbers, VersionEntries,
      Agrees, FlushLevelOk, OutputsOf, Recovers, InputsOk, NoGap;
    LaterNextFile(db, db.nextFile + 1);
    SwitchIsFresh(db);
    assert Full(db) == db.hist == Full(db');
    SwitchKeepsLogs(db.logs, db.tables, db.mem, db.nextFile, db.hist);
    SwitchKeepsMemTables(db.tables, db.mem, db.nextFile, db.hist);
    SwitchKeepsReads(db, db');
  }

  // ------------------------------------------------------------ snapshots

  lemma SnapshotTaken(ss: seq<nat>, last: nat)
    requires SnapshotsOk(ss, last)
    ensures SnapshotsOk(ss + [last], last)
  {
    assert forall i :: 0 <= i < |ss| ==> ss[i] in ss;
  }

  lemma SnapshotReleased(ss: seq<nat>, last: nat, i: nat)
    requires SnapshotsOk(ss, last) && i < |ss|
    ensures SnapshotsOk(ss[..i] + ss[i + 1..], last)
  {
    var r := ss[..i] + ss[i + 1..];
    forall s | s in r ensures s in ss {
    }
    forall a, b | 0 <= a < b < |r| ensures r[a] <= r[b] {
      assert r[a] == ss[if a < i then a else a + 1] && r[b] == ss[if b < i then b else b + 1];
    }
  }

  lemma TakeSnapshotKeeps(db: Db, db': Db)
    requires Invariant(db) && Next(db, db', TakeSnapshot)
    ensures Invariant(db') && (ReadsOk(db) ==> ReadsOk(db'))
  {
    hide TablesOk, DurableOk, JobOk, MemOk, Get, Lookup, View, Contents, EntryOf, VersionNumbers, LogHolds, LogNumbersOk,
      ReaderRight, FlushLevelOk, OutputsOf, Recovers, InputsOk, NoGap;
    MinLiveIsLeast(db);
    SnapshotTaken(db.snapshots, db.last);
  }

  /** Releasing a snapshot can only raise the oldest sequence number still in use. */
  lemma ReleaseSnapshotKeeps(db: Db, db': Db, i: nat)
    requires Invariant(db) && Next(db, db', ReleaseSnapshot(i))
    ensures Invariant(db') && (ReadsOk(db) ==> ReadsOk(db'))
  {
    hide TablesOk, DurableOk, JobOk, MemOk, Get, Lookup, View, Contents, EntryOf, VersionNumbers, LogHolds, LogNumbersOk,
      ReaderRight, FlushLevelOk, OutputsOf, Recovers, InputsOk, NoGap, MarksOk, MemTablesOk, LogsOk, Agrees;
    MinLiveIsLeast(db);
    SnapshotReleased(db.snapshots, db.last, i);
    if db'.snapshots != [] {
      assert db'.snapshots[0] in db.snapshots;
    }
    if db.job.Some? { LaterMinLive(db.job.value, db.version, db.manifest, MinLive(db), MinLive(db'), db.nextFile); }
    if ReadsOk(db) { AgreesFrom(All(db), db.hist, MinLive(db), MinLive(db'), db.last); }
  }

  lemma AgreesFrom(c: set<Entry>, h: Log, lo: nat, lo': nat, hi: nat)
    requires Agrees(c, h, lo, hi) && lo <= lo'
    ensures Agrees(c, h, lo', hi)
  {
  }

  // ------------------------------------------------------------ reads in progress

  lemma OneMoreReader(db: Db, db': Db, s: nat)
    requires LiveFiles(db.version, db.readers, db.job) <= db.files
    requires db' == db.(readers := db.readers + [Reader(s, db.mem, db.imm, db.version)])
    ensures LiveFiles(db'.version, db'.readers, db'.job) <= db'.files
  {
    hide VersionNumbers;
  }

  /** A read captures state that already answers correctly. */
  lemma CapturedReader(db: Db, s: nat)
    requires Invariant(db) && ReadsRight(db) && (s == db.last || s in db.snapshots)
    ensures ReaderRight(Reader(s, db.mem, db.imm, db.version), db.tables, db.hist)
  {
    hide TablesOk, DurableOk, JobOk, MemOk, Get, Lookup, LogHolds, LogNumbersOk, Agrees, VersionNumbers, LiveFiles, ReadsRight;
    forall u ensures GetBy(Reader(s, db.mem, db.imm, db.version), db.tables, u) == Lookup(db.hist, u, s) {
      ReadsSeeHistory(db, u, s);
    }
    MinLiveIsLeast(db);
  }

  lemma BeginReadKeeps(db: Db, db': Db, s: nat)
    requires Invariant(db) && Next(db, db', BeginRead(s))
    ensures Invariant(db') && (ReadsOk(db) ==> ReadsOk(db'))
  {
    hide TablesOk, DurableOk, JobOk, MemOk, Get, Lookup, View, Contents, EntryOf, LogHolds, LogNumbersOk, Agrees,
      FlushLevelOk, OutputsOf, Recovers, InputsOk, NoGap, VersionNumbers, LiveFiles, ReaderRight, MemTablesOk, LogsOk,
      SnapshotsOk;
    OneMoreReader(db, db', s);
    if ReadsOk(db) { CapturedReader(db, s); }
  }

  lemma EndReadKeeps(db: Db, db': Db, i: nat)
    requires Invariant(db) && Next(db, db', EndRead(i))
    ensures Invariant(db') && (ReadsOk(db) ==> ReadsOk(db'))
  {
    hide TablesOk, DurableOk, JobOk, MemOk, Get, Lookup, View, Contents, EntryOf, VersionNumbers, LogHolds, LogNumbersOk,
      ReaderRight, Agrees, FlushLevelOk, OutputsOf, Recovers, InputsOk, NoGap;
    assert forall r :: r in db'.readers ==> r in db.readers;
  }

  // ------------------------------------------------------------ file removal

  /** RemoveObsoleteFiles keeps every table a live version, reader or compaction needs, and every
      log that still backs a memtable. */
  lemma RemoveObsoleteKeeps(db: Db, db': Db)
    requires Invariant(db) && Next(db, db', RemoveObsolete)
    ensures Invariant(db') && (ReadsOk(db) ==> ReadsOk(db'))
    ensures LiveFiles(db.version, db.readers, db.job) <= db'.files
    ensures db.mem in db'.logs && db'.logs[db.mem] == db.logs[db.mem]
    ensures db.imm.Some? ==> db.imm.value in db'.logs && db'.logs[db.imm.value] == db.logs[db.imm.value]
  {
    hide TablesOk, DurableOk, JobOk, MemOk, Get, Lookup, View, Contents, EntryOf, VersionNumbers, LogHolds,
      ReaderRight, Agrees, FlushLevelOk, OutputsOf, Recovers, InputsOk, NoGap;
  }

  // ------------------------------------------------------------ compaction start and outputs

  lemma NextFileIsFresh(db: Db)
    requires Invariant(db)
    ensures db.nextFile !in VersionNumbers(db.version)
    ensures forall l: nat :: l < NUM_LEVELS ==> db.nextFile !in AddedAt(db.manifest, l)
  {
    hide VersionOk, AllSorted, WrittenUpTo, AddsEachOnce, InputsOk, NoGap, BaseLevel, Replay, AddedAt;
  }

  lemma OneMorePending(j: Job, v: Version, m: Manifest, minLive: nat, n: nat)
    requires JobOk(j, v, m, minLive, n) && n !in VersionNumbers(v)
    requires forall l: nat :: l < NUM_LEVELS ==> n !in AddedAt(m, l)
    ensures JobOk(j.(pending := j.pending + {n}), v, m, minLive, n + 1)
  {
    hide InputsOk, NoGap, BaseLevel, AddedAt, VersionNumbers;
  }

  lemma OpenOutputKeeps(db: Db, db': Db)
    requires Invariant(db) && Next(db, db', OpenOutput)
    ensures Invariant(db') && (ReadsOk(db) ==> ReadsOk(db'))
  {
    hide TablesOk, DurableOk, JobOk, MemOk, Get, Lookup, View, Contents, EntryOf, VersionNumbers, LogHolds,
      ReaderRight, Agrees, FlushLevelOk, OutputsOf, Recovers, InputsOk, NoGap;
    LaterNextFile(db, db.nextFile + 1);
    NextFileIsFresh(db);
    OneMorePending(db.job.value, db.version, db.manifest, MinLive(db), db.nextFile);
  }

  /** A compaction may start from whatever PickCompaction chose. */
  lemma StartCompactionKeeps(db: Db, db': Db, c: nat, in0: seq<File>, in1: seq<File>)
    requires Invariant(db) && Next(db, db', StartCompaction(c, in0, in1))
    ensures Invariant(db') && (ReadsOk(db) ==> ReadsOk(db'))
  {
    hide TablesOk, DurableOk, MemOk, Get, Lookup, View, Contents, EntryOf, LogHolds, LogNumbersOk,
      ReaderRight, Agrees, BaseLevel, FlushLevelOk, OutputsOf, Recovers;
  }
}
