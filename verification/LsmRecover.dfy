/** Crash and recovery: the manifest and the surviving logs rebuild everything acknowledged. */
module LsmRecover {
  import opened Keys
  import opened History
  import opened Files
  import opened Builder
  import opened Reads
  import opened Pick
  import opened Layout
  import opened Lsm
  import opened LsmInvariant
  import opened LsmWrites
  import opened LsmFlush

  // ------------------------------------------------------------ which logs are read

  /** Recovery reads exactly the logs of the immutable memtable, if any, and of the memtable. */
  lemma RecoveryReadsMemLogs(db: Db, ns: seq<nat>)
    requires Invariant(db) && RecoverableLogs(db, ns) && 1 <= |ns| <= 2
    ensures ns == if db.imm.Some? then [db.imm.value, db.mem] else [db.mem]
  {
    hide TablesOk, MemTablesOk, LogsOk, SnapshotsOk, JobOk, AddsEachOnce, AddedOk, Replay, VersionNumbers;
    assert db.mem in ns && (db.imm.Some? ==> db.imm.value in ns);
    forall i | 0 <= i < |ns| ensures ns[i] == db.mem || db.imm == Some(ns[i]) {
      assert ns[i] in ns;
    }
    if |ns| == 2 { assert ns[0] < ns[1]; }
  }

  // ------------------------------------------------------------ what a log yields

  /** The last operation of a nonempty log carries the highest sequence number. */
  lemma {:induction false} MaxSequenceOfLog(bs: seq<Batch>, a: nat)
    requires Contiguous(bs, a)
    ensures MaxSequence(bs) <= a + |Ops(bs)|
    ensures |Ops(bs)| > 0 ==> MaxSequence(bs) == a + |Ops(bs)|
  {
    if bs != [] {
      var init := bs[..|bs| - 1];
      assert forall i :: 0 <= i < |init| ==> init[..i] == bs[..i];
      MaxSequenceOfLog(init, a);
    }
  }

  /** Entries rebuilt from a log are the entries of the history it was written from. */
  lemma PlacedIsHistory(h: Log, a: nat, b: nat, i: nat)
    requires a < i <= b <= |h|
    ensures EntryOf(Placed(a, h[a..b]), i) == EntryOf(h, i)
  {
  }

  lemma MemOkOfPlaced(t: MemTable, h: Log, b: nat, a: nat, m: nat)
    requires a <= b <= |h| && a <= t.after && m <= b && MemOk(t, Placed(a, h[a..b]), m)
    ensures MemOk(t, h, m)
  {
    forall i | a < i <= b ensures EntryOf(Placed(a, h[a..b]), i) == EntryOf(h, i) { PlacedIsHistory(h, a, b, i); }
  }

  lemma {:induction false} TablesOfPlaced(fs: seq<File>, h: Log, a: nat, from: nat, b: nat, next: nat)
    requires a <= from && b <= |h| && a <= b && RecoveredTables(fs, Placed(a, h[a..b]), from, b, next)
    ensures RecoveredTables(fs, h, from, b, next)
    decreases |fs|
  {
    hide MemOk, Placed;
    if fs != [] {
      var p := Placed(a, h[a..b]);
      var m :| from < m <= b <= |p| && MemOk(MemTable(fs[0].entries, from), p, m) &&
        RecoveredTables(fs[1..], p, m, b, fs[0].number + 1);
      MemOkOfPlaced(MemTable(fs[0].entries, from), h, b, a, m);
      TablesOfPlaced(fs[1..], h, a, m, b, fs[0].number + 1);
    }
  }

  /** The tables recovered from a log hold its stretch of the history. */
  lemma LogYieldsTables(fs: seq<File>, bs: seq<Batch>, h: Log, a: nat, b: nat, next: nat)
    requires LogHolds(bs, h, a, b) && LogTables(fs, bs, next)
    ensures RecoveredTables(fs, h, a, b, next)
  {
    hide RecoveredTables, Placed;
    if bs == [] {
      EmptyLogYieldsNothing(h, a, next);
    } else {
      assert bs[..0] == [];
      TablesOfPlaced(fs, h, a, a, b, next);
    }
  }

  lemma EmptyLogYieldsNothing(h: Log, a: nat, next: nat)
    ensures RecoveredTables([], h, a, a, next)
  {
  }

  lemma {:induction false} JoinTables(fs: seq<File>, gs: seq<File>, h: Log, a: nat, b: nat, c: nat, next: nat)
    requires RecoveredTables(fs, h, a, b, next) && b <= c <= |h|
    requires RecoveredTables(gs, h, b, c, if fs == [] then next else fs[|fs| - 1].number + 1)
    ensures RecoveredTables(fs + gs, h, a, c, next)
    decreases |fs|
  {
    hide MemOk;
    if fs == [] {
      assert fs + gs == gs;
    } else {
      var m :| a < m <= b <= |h| && MemOk(MemTable(fs[0].entries, a), h, m) &&
        RecoveredTables(fs[1..], h, m, b, fs[0].number + 1);
      assert (fs + gs)[1..] == fs[1..] + gs;
      JoinTables(fs[1..], gs, h, m, b, c, fs[0].number + 1);
    }
  }

  // ------------------------------------------------------------ the recovered tables

  /** Recovered tables: valid, ascending in number and in age, and together the whole stretch. */
  ghost predicate Stretch(fs: seq<File>, h: Log, a: nat, b: nat, next: nat) {
    a <= b <= |h| && AllValid(fs) &&
    (forall f :: f in fs ==> f.number >= next) &&
    (forall i, j :: 0 <= i < j < |fs| ==> fs[i].number < fs[j].number && Newer(fs[j], fs[i])) &&
    (forall e :: e in EntriesOf(fs) ==> a < e.key.sn <= b && WrittenBy(e, h)) &&
    forall i :: a < i <= b ==> EntryOf(h, i) in EntriesOf(fs)
  }

  lemma ConsStretch(f: File, fs: seq<File>, h: Log, a: nat, m: nat, b: nat, next: nat)
    requires f.entries != [] && f == TableOf(f.number, f.size, f.entries) && f.number >= next
    requires MemOk(MemTable(f.entries, a), h, m) && |h| <= MAX_SEQUENCE
    requires Stretch(fs, h, m, b, f.number + 1)
    ensures Stretch([f] + fs, h, a, b, next)
  {
    hide EntryOf, Newer, ValidFile, EntriesOf, WrittenBy, MemOk;
    var r := [f] + fs;
    EntriesOfCons(f, fs);
    HeadOfStretch(f, h, a, m);
    forall i, j | 0 <= i < j < |r| ensures r[i].number < r[j].number && Newer(r[j], r[i]) {
      assert r[j] == fs[j - 1] && fs[j - 1] in fs;
      if i > 0 { assert r[i] == fs[i - 1]; } else { NewerThanHead(f, fs, fs[j - 1], m); }
    }
  }

  lemma EmptyStretch(h: Log, a: nat, next: nat)
    requires a <= |h|
    ensures Stretch([], h, a, a, next)
  {
  }

  lemma HeadOfStretch(f: File, h: Log, a: nat, m: nat)
    requires f.entries != [] && f == TableOf(f.number, f.size, f.entries)
    requires MemOk(MemTable(f.entries, a), h, m) && |h| <= MAX_SEQUENCE
    ensures ValidFile(f) && a <= m <= |h| && forall e :: e in f.entries ==> a < e.key.sn <= m && WrittenBy(e, h)
    ensures forall i :: a < i <= m ==> EntryOf(h, i) in f.entries
  {
    hide EntryOf;
  }

  lemma NewerThanHead(f: File, fs: seq<File>, g: File, m: nat)
    requires g in fs && (forall e :: e in EntriesOf(fs) ==> e.key.sn > m) && forall e :: e in f.entries ==> e.key.sn <= m
    ensures Newer(g, f)
  {
    forall e | e in g.entries ensures e in EntriesOf(fs) { }
  }

  lemma {:induction false} RecoveredStretch(fs: seq<File>, h: Log, a: nat, b: nat, next: nat)
    requires RecoveredTables(fs, h, a, b, next) && b <= |h| <= MAX_SEQUENCE
    ensures Stretch(fs, h, a, b, next)
    decreases |fs|
  {
    hide MemOk, Stretch;
    if fs == [] {
      EmptyStretch(h, a, next);
    } else {
      var m :| a < m <= b <= |h| && MemOk(MemTable(fs[0].entries, a), h, m) &&
        RecoveredTables(fs[1..], h, m, b, fs[0].number + 1);
      RecoveredStretch(fs[1..], h, m, b, fs[0].number + 1);
      ConsStretch(fs[0], fs[1..], h, a, m, b, next);
      assert fs == [fs[0]] + fs[1..];
    }
  }

  /** v' is v with fs added to level 0. */
  ghost predicate WithLevel0(v: Version, v': Version, fs: seq<File>) {
    forall l: nat :: l < NUM_LEVELS ==> LevelChange(v[l], v'[l], [], if l == 0 then fs else [])
  }

  lemma StretchNewerThanVersion(fs: seq<File>, h: Log, a: nat, b: nat, next: nat, v: Version)
    requires Stretch(fs, h, a, b, next) && WrittenUpTo(v, h, a)
    ensures forall f :: f in fs ==> NewerThanVersion(f, v)
  {
    hide EntryOf, WrittenBy;
    forall f, l: nat, g | f in fs && l < |v| && g in v[l] ensures Newer(f, g) {
      forall e, d | e in f.entries && d in g.entries ensures e.key.sn > d.key.sn {
        assert e in EntriesOf(fs);
        VersionEntriesUnder(v, l, g, d);
      }
    }
  }

  lemma TwoOfStretch(fs: seq<File>, h: Log, a: nat, b: nat, n: nat, f: File, g: File)
    requires Stretch(fs, h, a, b, n) && f in fs && g in fs
    ensures f.number > g.number ==> Newer(f, g)
    ensures f.number == g.number ==> f == g
  {
    var i :| 0 <= i < |fs| && fs[i] == f;
    var j :| 0 <= j < |fs| && fs[j] == g;
  }

  lemma DeeperLevelsUnchanged(v: Version, v': Version, fs: seq<File>)
    requires AllSorted(v) && WithLevel0(v, v', fs)
    ensures forall l: nat :: 1 <= l < NUM_LEVELS ==> v'[l] == v[l]
  {
    forall l: nat | 1 <= l < NUM_LEVELS ensures v'[l] == v[l] {
      assert LevelChange(v[l], v'[l], [], []);
      SortedFilesUnique(v[l], v'[l]);
    }
  }

  lemma Level0KeepsNumberOrder(v: Version, v': Version, fs: seq<File>, h: Log, a: nat, b: nat, n: nat)
    requires NumberOrder(v[0]) && NumbersOk(v, n) && LevelChange(v[0], v'[0], [], fs)
    requires Stretch(fs, h, a, b, n) && forall f :: f in fs ==> NewerThanVersion(f, v)
    ensures NumberOrder(v'[0])
  {
    hide EntryOf, Newer, ValidFile, SortedFiles, WrittenBy;
    forall f, g | f in v'[0] && g in v'[0]
      ensures f.number > g.number ==> Newer(f, g)
      ensures f.number == g.number ==> f == g
    {
      if f in fs && g in fs { TwoOfStretch(fs, h, a, b, n, f, g); }
    }
  }

  /** Level-0 tables newer than everything keep the layout. */
  lemma Level0KeepsLayout(v: Version, v': Version, fs: seq<File>, h: Log, a: nat, b: nat, n: nat)
    requires VersionOk(v) && AllSorted(v) && NumbersOk(v, n) && WithLevel0(v, v', fs)
    requires Stretch(fs, h, a, b, n) && WrittenUpTo(v, h, a)
    ensures VersionOk(v')
  {
    hide EntryOf, WrittenUpTo, ValidFile, Newer, NumberOrder, Before, SortedFiles, NumbersOk, WrittenBy;
    StretchNewerThanVersion(fs, h, a, b, n, v);
    DeeperLevelsUnchanged(v, v', fs);
    assert LevelChange(v[0], v'[0], [], fs);
    Level0KeepsNumberOrder(v, v', fs, h, a, b, n);
    forall x: nat, y: nat, f, g | x < y < NUM_LEVELS && f in v'[x] && g in v'[y] ensures Newer(f, g) {
      assert g in v[y];
      if !(x == 0 && f in fs) { assert f in v[x]; }
    }
  }

  // ------------------------------------------------------------ the recovered version

  lemma RecoveredLevels(v: Version, n: nat, e: LoggedEdit, fs: seq<File>, h: Log, a: nat, b: nat)
    requires AllSorted(v) && NumbersOk(v, n) && Stretch(fs, h, a, b, n)
    requires e.levels == OneLevel(0, LevelEdit({}, fs))
    ensures WithLevel0(v, EditVersion(v, e), fs) && EachNumberOnce(fs)
  {
    hide EntryOf, Newer, ValidFile, WrittenBy, EntriesOf;
    forall l: nat | l < NUM_LEVELS
      ensures LevelChange(v[l], EditVersion(v, e)[l], [], if l == 0 then fs else [])
    {
      if l == 0 {
        DistinctStretch(fs, h, a, b, n, v);
        EditedLevel(v[0], LevelEdit({}, fs));
      } else {
        UnchangedLevel(v[l]);
      }
    }
  }

  lemma DistinctStretch(fs: seq<File>, h: Log, a: nat, b: nat, n: nat, v: Version)
    requires NumbersOk(v, n) && Stretch(fs, h, a, b, n)
    ensures FreshFor(v[0], fs)
  {
    hide EntryOf, Newer, ValidFile, WrittenBy, EntriesOf;
    forall f, g | f in v[0] + fs && g in v[0] + fs && f.number == g.number ensures f == g {
      if f in fs && g in fs { TwoOfStretch(fs, h, a, b, n, f, g); }
    }
  }

  lemma Level0Entries(v: Version, v': Version, fs: seq<File>)
    requires WithLevel0(v, v', fs)
    ensures VersionEntries(v') == VersionEntries(v) + EntriesOf(fs)
    ensures VersionNumbers(v') <= VersionNumbers(v) + Numbers(fs)
  {
    assert LevelChange(v[0], v'[0], [], fs);
    forall e | e in VersionEntries(v) + EntriesOf(fs) ensures e in VersionEntries(v') {
      if e in EntriesOf(fs) {
        var f :| f in fs && e in f.entries;
        VersionEntriesUnder(v', 0, f, e);
      } else {
        var l: nat, g :| l < |v| && g in v[l] && e in g.entries;
        assert LevelChange(v[l], v'[l], [], if l == 0 then fs else []);
        VersionEntriesUnder(v', l, g, e);
      }
    }
    forall e | e in VersionEntries(v') ensures e in VersionEntries(v) + EntriesOf(fs) {
      var l: nat, g :| l < |v'| && g in v'[l] && e in g.entries;
      assert LevelChange(v[l], v'[l], [], if l == 0 then fs else []);
      if g in v[l] { VersionEntriesUnder(v, l, g, e); }
    }
  }

  lemma Level0Numbers(v: Version, v': Version, n: nat, n': nat, fs: seq<File>, h: Log, a: nat, b: nat)
    requires NumbersOk(v, n) && WithLevel0(v, v', fs) && Stretch(fs, h, a, b, n) && n <= n'
    requires forall f :: f in fs ==> f.number < n'
    ensures NumbersOk(v', n') && AllSorted(v')
  {
    hide EntryOf, Newer, ValidFile, WrittenBy, EntriesOf;
    forall x: nat, y: nat, f, g | x < NUM_LEVELS && y < NUM_LEVELS && f in v'[x] && g in v'[y] && f.number == g.number
      ensures x == y && f == g
    {
      assert LevelChange(v[x], v'[x], [], if x == 0 then fs else []);
      assert LevelChange(v[y], v'[y], [], if y == 0 then fs else []);
      if f in fs && g in fs { TwoOfStretch(fs, h, a, b, n, f, g); }
    }
  }

  lemma RecoveredTablesOk(v: Version, v': Version, n: nat, n': nat, fs: seq<File>, h: Log, a: nat)
    requires TablesOk(v, n, a, h) && WithLevel0(v, v', fs) && Stretch(fs, h, a, |h|, n) && n <= n'
    requires forall f :: f in fs ==> f.number < n'
    ensures TablesOk(v', n', |h|, h)
  {
    hide VersionOk, NumbersOk, AllSorted, VersionEntries, EntriesOf, WithLevel0, EntryOf, ValidFile, Newer;
    Level0KeepsLayout(v, v', fs, h, a, |h|, n);
    Level0Numbers(v, v', n, n', fs, h, a, |h|);
    Level0Entries(v, v', fs);
  }

  /** The new manifest replays to the recovered version. */
  lemma RecoveredReplays(v: Version, n: nat, n': nat, last: LoggedEdit, e: LoggedEdit, fs: seq<File>, h: Log, a: nat)
    requires AllSorted(v) && NumbersOk(v, n) && Stretch(fs, h, a, |h|, n)
    requires e.levels == OneLevel(0, LevelEdit({}, fs))
    ensures var m := [Snapshot(v, last.logNumber, n', last.lastSequence), e];
      AddsEachOnce(m) && Replay(m) == EditVersion(v, e) &&
      forall l: nat :: l < NUM_LEVELS ==> AddedAt(m, l) == Numbers(v[l]) + (if l == 0 then Numbers(fs) else {})
  {
    hide Replay, AddedAt, EditVersion, AddsEachOnce, EntryOf, ValidFile, Newer, EntriesOf, Snapshot, SortedFiles, Stretch;
    var snap := Snapshot(v, last.logNumber, n', last.lastSequence);
    forall l | 0 <= l < NUM_LEVELS ensures SortedFiles(v[l]) && EachNumberOnce(v[l]) { LevelNumbersOnce(v, n, l); }
    SnapshotReplays(v, last.logNumber, n', last.lastSequence);
    RecoveredLevels(v, n, e, fs, h, a, |h|);
    forall l: nat | l < NUM_LEVELS
      ensures EachNumberOnce(e.levels[l].added) && Numbers(e.levels[l].added) !! AddedAt([snap], l)
      ensures AddedAt([snap] + [e], l) == Numbers(v[l]) + (if l == 0 then Numbers(fs) else {})
    {
      LevelPartAppend([snap], e, l);
      if l == 0 { NumbersFromN(v, fs, h, a, |h|, n); }
    }
    ReplayAppend([snap], e);
    assert [snap] + [e] == [snap, e];
  }

  lemma NumbersFromN(v: Version, fs: seq<File>, h: Log, a: nat, b: nat, n: nat)
    requires NumbersOk(v, n) && Stretch(fs, h, a, b, n)
    ensures Numbers(fs) !! Numbers(v[0])
  {
    hide EntryOf, ValidFile, Newer, EntriesOf, WrittenBy;
  }

  /** The new manifest: a snapshot of the replayed version, then the edit that adds the tables. */
  lemma RecoveredManifest(v: Version, n: nat, n': nat, last: LoggedEdit, e: LoggedEdit, fs: seq<File>, h: Log, a: nat)
    requires AllSorted(v) && NumbersOk(v, n) && Stretch(fs, h, a, |h|, n) && n <= n'
    requires forall f :: f in fs ==> f.number < n'
    requires e.levels == OneLevel(0, LevelEdit({}, fs)) && e.nextFile == n' && e.lastSequence == |h|
    ensures DurableOk([Snapshot(v, last.logNumber, n', last.lastSequence), e], EditVersion(v, e), n', e.logNumber, |h|, |h|)
  {
    hide Replay, AddedAt, EditVersion, AddsEachOnce, EntryOf, ValidFile, Newer, EntriesOf, Snapshot, Stretch, AllSorted;
    var v', m := EditVersion(v, e), [Snapshot(v, last.logNumber, n', last.lastSequence), e];
    RecoveredLevels(v, n, e, fs, h, a, |h|);
    RecoveredReplays(v, n, n', last, e, fs, h, a);
    Level0Numbers(v, v', n, n', fs, h, a, |h|);
    forall l: nat, c: nat, f: File | l < NUM_LEVELS && c < NUM_LEVELS && f in v'[c] && f.number in AddedAt(m, l)
      ensures l <= c
    {
      assert LevelChange(v[c], v'[c], [], if c == 0 then fs else []);
      if l > 0 {
        var g :| g in v[l] && g.number == f.number;
        DeeperStays(v, v', fs, l, g);
      }
    }
  }

  lemma DeeperStays(v: Version, v': Version, fs: seq<File>, l: nat, g: File)
    requires WithLevel0(v, v', fs) && 0 < l < NUM_LEVELS && g in v[l]
    ensures g in v'[l]
  {
    assert LevelChange(v[l], v'[l], [], if l == 0 then fs else []);
  }

  lemma LevelNumbersOnce(v: Version, n: nat, l: nat)
    requires AllSorted(v) && NumbersOk(v, n) && l < NUM_LEVELS
    ensures EachNumberOnce(v[l])
  {
    forall i, j | 0 <= i < j < |v[l]| ensures v[l][i].number != v[l][j].number {
      assert FileLess(v[l][i], v[l][j]);
      assert v[l][i] in v[l] && v[l][j] in v[l];
    }
  }

  // ------------------------------------------------------------ the recovered database

  lemma LogHoldsPrefix(bs: seq<Batch>, h: Log, more: Log, a: nat, b: nat)
    requires LogHolds(bs, h, a, b)
    ensures LogHolds(bs, h + more, a, b)
  {
    assert (h + more)[a..b] == h[a..b];
  }

  /** The logs that are read yield the unflushed part of the history and the logged group. */
  lemma RecoveredWhole(db: Db, ns: seq<nat>, immTables: seq<File>, memTables: seq<File>, next: nat)
    requires Invariant(db) && RecoverableLogs(db, ns) && TablesOfLogs(db, ns, immTables, memTables, next)
    ensures Stretch(immTables + memTables, db.hist + Logged(db), FlushedTo(db), |db.hist + Logged(db)|, next)
  {
    hide TablesOk, DurableOk, MemTablesOk, SnapshotsOk, JobOk, LogHolds, LogTables, Stretch, LogNumbersOk, VersionNumbers,
      RecoverableLogs, RecoveredTables, InputsOk;
    var h, mid := db.hist + Logged(db), db.tables[db.mem].after;
    RecoveryReadsMemLogs(db, ns);
    if db.imm.None? {
      assert immTables + memTables == memTables;
      LogYieldsTables(memTables, db.logs[db.mem], h, mid, |h|, next);
      RecoveredStretch(memTables, h, mid, |h|, next);
    } else {
      var a := FlushedTo(db);
      var next' := if immTables == [] then next else immTables[|immTables| - 1].number + 1;
      LogHoldsPrefix(db.logs[db.imm.value], db.hist, Logged(db), a, mid);
      LogYieldsTables(immTables, db.logs[db.imm.value], h, a, mid, next);
      LogYieldsTables(memTables, db.logs[db.mem], h, mid, |h|, next');
      StretchesMeet(db);
      JoinTables(immTables, memTables, h, a, mid, |h|, next);
      RecoveredStretch(immTables + memTables, h, a, |h|, next);
    }
  }

  lemma StretchesMeet(db: Db)
    requires Invariant(db)
    ensures FlushedTo(db) <= db.tables[db.mem].after <= db.last <= |db.hist + Logged(db)| <= MAX_SEQUENCE
  {
    hide TablesOk, DurableOk, SnapshotsOk, JobOk, LogsOk, LogNumbersOk, VersionNumbers, InputsOk;
  }

  /** The last sequence number found is the number of writes recovered. */
  lemma RecoveredLastIsWhole(db: Db, ns: seq<nat>)
    requires Invariant(db) && RecoverableLogs(db, ns) && 1 <= |ns| <= 2
    ensures RecoveredLast(db, ns) == |db.hist + Logged(db)|
  {
    hide TablesOk, MemTablesOk, SnapshotsOk, JobOk, LogNumbersOk, VersionNumbers, RecoverableLogs, InputsOk, AddedOk,
      AddsEachOnce, Replay, Contiguous, RecoveredLast, MaxSequence, Ops;
    var h, mid := db.hist + Logged(db), db.tables[db.mem].after;
    RecoveryReadsMemLogs(db, ns);
    LastOfLogs(db, ns);
    StretchesMeet(db);
    MaxSequenceOfLog(db.logs[db.mem], mid);
    if db.imm.Some? { MaxSequenceOfLog(db.logs[db.imm.value], FlushedTo(db)); }
    assert |h[mid..|h|]| == |h| - mid;
  }

  lemma LastOfLogs(db: Db, ns: seq<nat>)
    requires db.manifest != [] && (forall n :: n in ns ==> n in db.logs) && 1 <= |ns| <= 2
    ensures var first := Max(LastEdit(db.manifest).lastSequence, MaxSequence(db.logs[ns[0]]));
      RecoveredLast(db, ns) == if |ns| == 1 then first else Max(first, MaxSequence(db.logs[ns[1]]))
  {
    hide MaxSequence;
    assert ns[..1][..0] == [] && ns[..1] == [ns[0]] && ns[..0] == [];
    assert RecoveredLast(db, ns[..1]) == Max(RecoveredLast(db, ns[..0]), MaxSequence(db.logs[ns[0]]));
    if |ns| == 1 { assert ns[..1] == ns; }
  }

  /** Every acknowledged write can be read after recovery; of the group in flight, all or nothing. */
  lemma RecoveredReads(db: Db, v': Version, fs: seq<File>, u: UserKey, next: nat)
    requires Invariant(db) && ReadsRight(db)
    requires Stretch(fs, db.hist + Logged(db), FlushedTo(db), |db.hist + Logged(db)|, next)
    requires VersionEntries(v') == VersionEntries(db.version) + EntriesOf(fs)
    ensures var h := db.hist + Logged(db); View(VersionEntries(v'), u, |h|) == Lookup(h, u, |h|)
  {
    hide DurableOk, SnapshotsOk, JobOk, LogsOk, LogNumbersOk, VersionNumbers, InputsOk, VersionOk, NumbersOk, AllSorted,
      Get, View, Lookup, VersionEntries, EntriesOf, ValidFile, Newer;
    var h, c' := db.hist + Logged(db), VersionEntries(v');
    RecoveredAgreesBefore(db, fs, next);
    assert AllWrittenBy(All(db), h) && AllWrittenBy(c', h) by { RecoveredAreWritten(db, fs, next); }
    ViewIgnoresNewer(All(db), c', h, u, db.last);
    LookupIgnoresLaterWrites(db.hist, Logged(db), u, db.last);
    assert MinLive(db) <= db.last by { MinLiveBelowLast(db); }
    forall i | db.last < i <= |h| ensures EntryOf(h, i) in c' { StretchesMeet(db); }
    ViewFollowsHistory(c', h, u, db.last, |h|);
  }

  lemma MinLiveBelowLast(db: Db)
    requires Invariant(db)
    ensures MinLive(db) <= db.last
  {
    hide TablesOk, DurableOk, MemTablesOk, LogsOk, LogNumbersOk, JobOk, VersionNumbers;
    MinLiveIsLeast(db);
  }

  lemma RecoveredAreWritten(db: Db, fs: seq<File>, next: nat)
    requires Invariant(db)
    requires Stretch(fs, db.hist + Logged(db), FlushedTo(db), |db.hist + Logged(db)|, next)
    ensures AllWrittenBy(All(db), db.hist + Logged(db))
    ensures AllWrittenBy(VersionEntries(db.version) + EntriesOf(fs), db.hist + Logged(db))
  {
    hide DurableOk, SnapshotsOk, JobOk, LogsOk, LogNumbersOk, VersionNumbers, InputsOk, VersionOk, NumbersOk, AllSorted,
      VersionEntries, EntriesOf, ValidFile, Newer;
    LayersAreOrdered(db);
    var h := db.hist + Logged(db);
    assert Full(db) == h || (Inserted(db) == 0 && Logged(db) == []);
    WrittenUpToExtends(db.version, db.hist, Logged(db), FlushedTo(db));
    forall e | e in All(db) ensures WrittenBy(e, h) {
      assert WrittenBy(e, Full(db));
      if e in VersionEntries(db.version) { assert WrittenBy(e, h); }
    }
  }

  /** Up to the last acknowledged write, tables recovered from the logs hold what the memtables held. */
  lemma RecoveredAgreesBefore(db: Db, fs: seq<File>, next: nat)
    requires Invariant(db)
    requires Stretch(fs, db.hist + Logged(db), FlushedTo(db), |db.hist + Logged(db)|, next)
    ensures forall e :: e in VersionEntries(db.version) + EntriesOf(fs) && e.key.sn <= db.last ==> e in All(db)
    ensures forall e :: e in All(db) && e.key.sn <= db.last ==> e in VersionEntries(db.version) + EntriesOf(fs)
  {
    hide DurableOk, SnapshotsOk, JobOk, LogsOk, LogNumbersOk, VersionNumbers, InputsOk, VersionOk, NumbersOk, AllSorted,
      VersionEntries, EntriesOf, ValidFile, Newer, WrittenUpTo;
    var h := db.hist + Logged(db);
    forall i | 1 <= i <= db.last ensures EntryOf(Full(db), i) == EntryOf(h, i) {
    }
  }

  /** Recovery after a crash at any point: the invariant holds again, every acknowledged write is
      back, and at most the logged group has been added. */
  lemma RecoveryKeeps(db: Db, db': Db, immTables: seq<File>, memTables: seq<File>, log: nat)
    requires Invariant(db) && Next(db, db', CrashAndRecover(immTables, memTables, log))
    ensures Invariant(db') && (ReadsOk(db) ==> ReadsOk(db'))
    ensures db'.hist == db.hist || (db.group.Some? && db'.hist == db.hist + db.group.value.ops)
  {
    hide Invariant, VersionNumbers, ReaderRight, Replay, View, Lookup, VersionEntries, Stretch, TablesOfLogs, Agrees, OutputsOf,
      FlushLevelOk, Recovered, RecoveredLast, InputsOk;
    var fs, h, next := immTables + memTables, db.hist + Logged(db), LastEdit(db.manifest).nextFile + 1;
    var ns :| RecoverableLogs(db, ns) && (forall n :: n in ns ==> n < log) &&
      TablesOfLogs(db, ns, immTables, memTables, next) &&
      db' == Recovered(db, h, RecoveredLast(db, ns), fs, log);
    OneOrTwoLogs(db, ns, immTables, memTables, next);
    RecoveredWhole(db, ns, immTables, memTables, next);
    RecoveredLastIsWhole(db, ns);
    RecoveredStructure(db, db', ns, fs, log);
    RecoveredParts(db, h, |h|, fs, log);
    if ReadsOk(db) {
      forall u { RecoveredReads(db, db'.version, fs, u, next); }
      OnlyLatestIsLive(db');
    }
  }

  lemma RecoveredParts(db: Db, h: Log, last: nat, fs: seq<File>, log: nat)
    requires db.manifest != []
    ensures var r := Recovered(db, h, last, fs, log); r.hist == h && r.last == last && r.snapshots == [] && r.readers == []
  {
  }

  lemma OneOrTwoLogs(db: Db, ns: seq<nat>, immTables: seq<File>, memTables: seq<File>, next: nat)
    requires (forall n :: n in ns ==> n in db.logs) && TablesOfLogs(db, ns, immTables, memTables, next)
    ensures 1 <= |ns| <= 2
  {
  }

  lemma OnlyLatestIsLive(db: Db)
    requires db.snapshots == [] && db.last == |db.hist|
    requires forall u :: View(All(db), u, db.last) == Lookup(db.hist, u, db.last)
    ensures ReadsRight(db)
  {
  }

  lemma RecoveredStructure(db: Db, db': Db, ns: seq<nat>, fs: seq<File>, log: nat)
    requires Invariant(db) && RecoverableLogs(db, ns) && (forall n :: n in ns ==> n < log) && 1 <= |ns| <= 2
    requires Stretch(fs, db.hist + Logged(db), FlushedTo(db), |db.hist + Logged(db)|, LastEdit(db.manifest).nextFile + 1)
    requires VersionNumbers(Replay(db.manifest)) <= db.files
    requires LastEdit(db.manifest).nextFile + 1 <= log && forall f :: f in fs ==> f.number < log
    requires RecoveredLast(db, ns) == |db.hist + Logged(db)|
    requires db' == Recovered(db, db.hist + Logged(db), RecoveredLast(db, ns), fs, log)
    ensures Invariant(db') && VersionEntries(db'.version) == VersionEntries(db.version) + EntriesOf(fs)
    ensures All(db') == VersionEntries(db'.version)
  {
    hide DurableOk, MemTablesOk, SnapshotsOk, JobOk, LogHolds, LogsOk, LogNumbersOk, VersionNumbers, VersionOk, NumbersOk,
      AllSorted, WrittenUpTo, InputsOk, EditVersion, Replay, VersionEntries, EntryOf, Stretch, RecoverableLogs, WithLevel0,
      EntriesOf, Snapshot, Numbers, Contents;
    DurableVersion(db);
    var v, h, a, n := db.version, db.hist + Logged(db), FlushedTo(db), LastEdit(db.manifest).nextFile + 1;
    var last := LastEdit(db.manifest);
    var snap, e := Snapshot(v, last.logNumber, log + 1, last.lastSequence), db'.manifest[1];
    assert db'.manifest == [snap, e];
    NumbersBelow(v, db.nextFile, n);
    WrittenUpToExtends(v, db.hist, Logged(db), a);
    RecoveredLevels(v, n, e, fs, h, a, |h|);
    RecoveredTablesOk(v, db'.version, n, log + 1, fs, h, a);
    RecoveredManifest(v, n, log + 1, last, e, fs, h, a);
    Level0Entries(v, db'.version, fs);
    LogsBelow(db, ns, log);
    FreshLogs(db.logs, log, h);
    assert h + [] == h;
    NewDatabase(db', h, log);
  }

  /** The parts of the invariant that hold of any database with nothing in memory. */
  lemma NewDatabase(db: Db, h: Log, log: nat)
    requires db.hist == h && db.last == |h| < MAX_SEQUENCE && db.tables == map[log := MemTable([], |h|)]
    requires db.mem == log && db.imm == None && db.mem in db.logs && db.nextFile == log + 1
    requires db.snapshots == [] && db.group == None && db.job == None && db.readers == []
    requires VersionNumbers(db.version) <= db.files
    ensures Full(db) == h && Logged(db) == [] && FlushedTo(db) == |h| && Inserted(db) == 0 && h + Logged(db) == h
    ensures Basics(db) && SnapshotsOk(db.snapshots, db.last)
    ensures LiveFiles(db.version, db.readers, db.job) <= db.files
    ensures All(db) == VersionEntries(db.version)
  {
    hide VersionEntries, VersionNumbers;
  }

  lemma DurableVersion(db: Db)
    requires Invariant(db)
    ensures Replay(db.manifest) == db.version && db.manifest != []
    ensures forall k :: k in VersionNumbers(db.version) ==> k < LastEdit(db.manifest).nextFile + 1
    ensures |db.hist + Logged(db)| < MAX_SEQUENCE
  {
    hide MemTablesOk, SnapshotsOk, JobOk, LogsOk, LogNumbersOk, VersionNumbers, TablesOk, Replay, AddsEachOnce, AddedOk;
  }

  lemma NumbersBelow(v: Version, n: nat, n': nat)
    requires NumbersOk(v, n) && forall k :: k in VersionNumbers(v) ==> k < n'
    ensures NumbersOk(v, n')
  {
    forall l: nat, f | l < NUM_LEVELS && f in v[l] ensures f.number < n' {
      assert f.number in VersionNumbers(v);
    }
  }

  lemma LogsBelow(db: Db, ns: seq<nat>, log: nat)
    requires RecoverableLogs(db, ns) && ns != [] && forall n :: n in ns ==> n < log
    ensures forall k :: k in db.logs ==> k < log
  {
    assert ns[0] in ns;
  }

  /** A new, empty log and memtable start where the recovered history ends. */
  lemma FreshLogs(logs: map<nat, seq<Batch>>, log: nat, h: Log)
    requires forall k :: k in logs ==> k < log
    ensures var t := map[log := MemTable([], |h|)];
      LogNumbersOk(logs[log := []], log, log + 1, log, None) &&
      LogsOk(logs[log := []], t, log, None, h, []) && MemTablesOk(t, log, None, h + [], |h|, |h|)
  {
    assert h + [] == h && h[|h|..|h|] == [];
  }
}
