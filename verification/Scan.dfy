/** Iterating the whole database: the children of the internal iterator hold exactly its entries, so
    DBIter over them shows exactly what the flat history holds. */
module Scan {
  import opened Keys
  import opened History
  import opened Files
  import opened Ranges
  import opened Builder
  import opened Reads
  import opened CompactionWork
  import opened Merging
  import opened Lsm
  import opened LsmInvariant
  import opened LsmCompact
  import opened LsmRuns
  import opened DbIter

  /** Each deeper level that has files is one run, its tables one after the other. */
  function DeeperRuns(v: Version, l: nat): seq<seq<Entry>>
    requires 1 <= l <= NUM_LEVELS
    decreases NUM_LEVELS - l
  {
    if l == NUM_LEVELS then []
    else (if v[l] == [] then [] else [Flatten(FileEntries(v[l]))]) + DeeperRuns(v, l + 1)
  }

  /** The children of DBImpl::NewInternalIterator: memtables, level-0 tables, deeper levels. */
  function ChildRuns(tables: map<nat, MemTable>, mem: nat, imm: Option<nat>, v: Version): seq<seq<Entry>> {
    [Entries(tables, Some(mem))] + (if imm.Some? then [Entries(tables, imm)] else []) + (FileEntries(v[0]) + DeeperRuns(v, 1))
  }

  /** What an iterator over these memtables and this version goes through. */
  ghost function Held(tables: map<nat, MemTable>, mem: nat, imm: Option<nat>, v: Version): set<Entry> {
    Contents(Entries(tables, Some(mem)), Entries(tables, imm), v)
  }

  /** They hold successive stretches of the history. */
  ghost predicate Layered(tables: map<nat, MemTable>, mem: nat, imm: Option<nat>, v: Version, h: Log) {
    VersionOk(v) && AllSorted(v) && Sorted(Entries(tables, Some(mem))) && Sorted(Entries(tables, imm)) &&
    NewerThanAll(Entries(tables, imm), VersionEntries(v)) &&
    NewerThanAll(Entries(tables, Some(mem)), (set e | e in Entries(tables, imm)) + VersionEntries(v)) &&
    AllWrittenBy(Held(tables, mem, imm, v), h)
  }

  /** The runs can be merged, and together they hold exactly the entries of c. */
  ghost predicate HoldExactly(runs: seq<seq<Entry>>, c: set<Entry>) {
    Mergeable(runs) && forall e :: e in c <==> InSomeRun(runs, e)
  }

  ghost predicate InSomeRun(runs: seq<seq<Entry>>, e: Entry) {
    exists i :: 0 <= i < |runs| && e in runs[i]
  }

  ghost predicate KeysDiffer(c: set<Entry>, d: set<Entry>) {
    forall x, y :: x in c && y in d ==> x.key != y.key
  }

  lemma JoinRuns(a: seq<seq<Entry>>, b: seq<seq<Entry>>, c: set<Entry>, d: set<Entry>)
    requires HoldExactly(a, c) && HoldExactly(b, d) && KeysDiffer(c, d)
    ensures HoldExactly(a + b, c + d)
  {
    hide Sorted;
    var r := a + b;
    forall i, j, e: Entry, f: Entry | 0 <= i < j < |r| && e in r[i] && f in r[j] ensures e.key != f.key {
      if i < |a| && j >= |a| {
        assert InSomeRun(a, e) && r[j] == b[j - |a|] && InSomeRun(b, f);
      } else if i >= |a| {
        assert r[i] == b[i - |a|] && r[j] == b[j - |a|];
      }
    }
    forall e ensures e in c + d <==> InSomeRun(r, e) {
      if InSomeRun(a, e) {
        var i :| 0 <= i < |a| && e in a[i];
        assert r[i] == a[i];
      }
      if InSomeRun(b, e) {
        var i :| 0 <= i < |b| && e in b[i];
        assert r[i + |a|] == b[i];
      }
      if i :| 0 <= i < |r| && e in r[i] {
        if i >= |a| { assert r[i] == b[i - |a|]; }
      }
    }
  }

  lemma OneRun(es: seq<Entry>)
    requires Sorted(es)
    ensures HoldExactly([es], SetOf(es))
  {
    assert forall e :: e in es ==> e in [es][0];
  }

  // ------------------------------------------------------------ the runs of a version

  /** The tables of a disjoint level, one after the other, are one sorted run. */
  lemma {:induction false} LevelIsRun(fs: seq<File>)
    requires AllValid(fs) && Disjoint(fs)
    ensures Sorted(Flatten(FileEntries(fs)))
    ensures forall e :: e in Flatten(FileEntries(fs)) <==> e in EntriesOf(fs)
  {
    hide Less, Sorted, Before, Flatten, EntriesOf, ValidFile;
    if fs == [] {
      EmptyIsSorted();
      NoFiles(fs);
    } else {
      var n := |fs| - 1;
      var init, last := fs[..n], fs[n];
      LevelIsRun(init);
      LastFileOf(fs);
      var a := Flatten(FileEntries(init));
      assert last in fs;
      LastIsSorted(last);
      forall x, y | x in a && y in last.entries ensures Less(x.key, y.key) { BeforeLastFile(fs, x, y); }
      AppendSorted(a, last.entries);
    }
  }

  lemma NoFiles(fs: seq<File>)
    requires fs == []
    ensures Flatten(FileEntries(fs)) == [] && EntriesOf(fs) == {}
  {
  }

  lemma LastIsSorted(f: File)
    requires ValidFile(f)
    ensures Sorted(f.entries)
  {
  }

  lemma LastFileOf(fs: seq<File>)
    requires fs != []
    ensures Flatten(FileEntries(fs)) == Flatten(FileEntries(fs[..|fs| - 1])) + fs[|fs| - 1].entries
    ensures EntriesOf(fs) == EntriesOf(fs[..|fs| - 1]) + SetOf(fs[|fs| - 1].entries)
  {
    var n := |fs| - 1;
    assert FileEntries(fs)[..n] == FileEntries(fs[..n]) && fs == fs[..n] + [fs[n]];
  }

  lemma BeforeLastFile(fs: seq<File>, x: Entry, y: Entry)
    requires AllValid(fs) && Disjoint(fs) && fs != [] && x in EntriesOf(fs[..|fs| - 1]) && y in fs[|fs| - 1].entries
    ensures Less(x.key, y.key)
  {
    hide Less, ValidFile, Before;
    var n := |fs| - 1;
    var f :| f in fs[..n] && x in f.entries;
    var i :| 0 <= i < n && fs[..n][i] == f;
    assert fs[i] == f && f in fs && fs[n] in fs && Before(fs[i], fs[n]);
    EntriesInOrder(f, fs[n], x, y);
  }

  lemma EmptyIsSorted()
    ensures Sorted([])
  {
  }

  lemma EntriesInOrder(f: File, g: File, x: Entry, y: Entry)
    requires ValidFile(f) && ValidFile(g) && Before(f, g) && x in f.entries && y in g.entries
    ensures Less(x.key, y.key)
  {
    hide Sorted;
    EntryInRange(f, x);
    EntryInRange(g, y);
  }

  lemma AppendSorted(a: seq<Entry>, b: seq<Entry>)
    requires Sorted(a) && Sorted(b) && forall x, y :: x in a && y in b ==> Less(x.key, y.key)
    ensures Sorted(a + b)
  {
    hide Less;
    var r := a + b;
    forall i, j | 0 <= i < j < |r| ensures Less(r[i].key, r[j].key) {
      if i < |a| && j >= |a| {
        assert r[i] in a && r[j] == b[j - |a|] && r[j] in b;
      } else if i >= |a| {
        assert r[i] == b[i - |a|] && r[j] == b[j - |a|];
      }
    }
  }

  lemma NewerKeysDiffer(fs: seq<File>, d: set<Entry>)
    requires forall f, e :: f in fs && e in d ==> OlderThan(e, f)
    ensures KeysDiffer(EntriesOf(fs), d)
  {
  }

  ghost predicate OlderThan(e: Entry, f: File) {
    forall x :: x in f.entries && x.key.user == e.key.user ==> x.key.sn > e.key.sn
  }

  lemma LevelsDiffer(v: Version, l: nat)
    requires LevelOrder(v) && l < NUM_LEVELS
    ensures KeysDiffer(EntriesOf(v[l]), EntriesFrom(v, l + 1))
  {
    forall f, e | f in v[l] && e in EntriesFrom(v, l + 1) ensures OlderThan(e, f) {
      var x: nat, g :| l + 1 <= x < |v| && g in v[x] && e in g.entries;
      assert Newer(f, g);
    }
    NewerKeysDiffer(v[l], EntriesFrom(v, l + 1));
  }

  lemma LevelJoinsDeeper(v: Version, l: nat)
    requires l < NUM_LEVELS
    ensures EntriesOf(v[l]) + EntriesFrom(v, l + 1) == EntriesFrom(v, l)
  {
    forall e | e in EntriesFrom(v, l) ensures e in EntriesOf(v[l]) + EntriesFrom(v, l + 1) {
      var x: nat, g :| l <= x < |v| && g in v[x] && e in g.entries;
      if x > l { assert l + 1 <= x; }
    }
  }

  lemma {:induction false} DeeperRunsHold(v: Version, l: nat)
    requires VersionOk(v) && 1 <= l <= NUM_LEVELS
    ensures HoldExactly(DeeperRuns(v, l), EntriesFrom(v, l))
    decreases NUM_LEVELS - l
  {
    if l < NUM_LEVELS {
      DeeperRunsHold(v, l + 1);
      LevelJoinsDeeper(v, l);
      LevelsDiffer(v, l);
      LevelIsRun(v[l]);
      hide HoldExactly, VersionOk, EntriesOf, EntriesFrom, DeeperRuns, KeysDiffer;
      var run, rest := Flatten(FileEntries(v[l])), DeeperRuns(v, l + 1);
      assert SetOf(run) == EntriesOf(v[l]);
      OneRun(run);
      JoinRuns([run], rest, EntriesOf(v[l]), EntriesFrom(v, l + 1));
      DeeperRunsStep(v, l);
    }
  }

  lemma DeeperRunsStep(v: Version, l: nat)
    requires VersionOk(v) && 1 <= l < NUM_LEVELS
    requires HoldExactly([Flatten(FileEntries(v[l]))] + DeeperRuns(v, l + 1), EntriesFrom(v, l))
    requires HoldExactly(DeeperRuns(v, l + 1), EntriesFrom(v, l + 1))
    requires EntriesOf(v[l]) + EntriesFrom(v, l + 1) == EntriesFrom(v, l)
    ensures HoldExactly(DeeperRuns(v, l), EntriesFrom(v, l))
  {
    hide HoldExactly, VersionOk, EntriesFrom;
    if v[l] == [] {
      assert EntriesOf(v[l]) == {};
      assert EntriesFrom(v, l) == EntriesFrom(v, l + 1);
      assert DeeperRuns(v, l) == DeeperRuns(v, l + 1);
    }
  }

  lemma Level0RunsHold(fs: seq<File>)
    requires AllValid(fs) && NumberOrder(fs) && NoDuplicates(fs)
    ensures HoldExactly(FileEntries(fs), EntriesOf(fs))
  {
    hide Sorted;
    var runs := FileEntries(fs);
    forall i, j, e: Entry, d: Entry | 0 <= i < j < |runs| && e in runs[i] && d in runs[j] ensures e.key != d.key {
      assert fs[i] in fs && fs[j] in fs;
      assert Newer(fs[i], fs[j]) || Newer(fs[j], fs[i]);
    }
    forall i | 0 <= i < |runs| ensures Sorted(runs[i]) { assert fs[i] in fs; }
    forall e ensures e in EntriesOf(fs) <==> InSomeRun(runs, e) {
      if e in EntriesOf(fs) {
        var f :| f in fs && e in f.entries;
        var i :| 0 <= i < |fs| && fs[i] == f;
        assert e in runs[i];
      }
      if i :| 0 <= i < |runs| && e in runs[i] { assert fs[i] in fs; }
    }
  }

  lemma SortedOnce(fs: seq<File>)
    requires SortedFiles(fs)
    ensures NoDuplicates(fs)
  {
  }

  lemma VersionRunsHold(v: Version)
    requires VersionOk(v) && AllSorted(v)
    ensures HoldExactly(FileEntries(v[0]) + DeeperRuns(v, 1), VersionEntries(v))
  {
    SortedOnce(v[0]);
    Level0RunsHold(v[0]);
    DeeperRunsHold(v, 1);
    LevelsDiffer(v, 0);
    LevelJoinsDeeper(v, 0);
    hide HoldExactly, VersionOk, EntriesOf, DeeperRuns, KeysDiffer, AllSorted;
    JoinRuns(FileEntries(v[0]), DeeperRuns(v, 1), EntriesOf(v[0]), EntriesFrom(v, 1));
    assert EntriesFrom(v, 0) == VersionEntries(v);
  }

  // ------------------------------------------------------------ the runs of a database

  lemma NewerThanAllDiffers(es: seq<Entry>, d: set<Entry>)
    requires NewerThanAll(es, d)
    ensures KeysDiffer(SetOf(es), d)
  {
  }

  lemma DatabaseIsLayered(db: Db)
    requires Invariant(db)
    ensures Layered(db.tables, db.mem, db.imm, db.version, Full(db)) && Held(db.tables, db.mem, db.imm, db.version) == All(db)
  {
    hide DurableOk, LogsOk, LogNumbersOk, JobOk, SnapshotsOk, VersionNumbers, VersionEntries, VersionOk, AllSorted, NumbersOk,
      WrittenUpTo, MemOk, AllWrittenBy, NewerThanAll, Sorted, MemTablesOk;
    LayersAreOrdered(db);
  }

  lemma ChildRunsHold(tables: map<nat, MemTable>, mem: nat, imm: Option<nat>, v: Version, h: Log)
    requires Layered(tables, mem, imm, v, h)
    ensures HoldExactly(ChildRuns(tables, mem, imm, v), Held(tables, mem, imm, v))
  {
    hide VersionEntries, VersionOk, AllSorted, HoldExactly, KeysDiffer, DeeperRuns, AllWrittenBy, NewerThanAll, Sorted;
    VersionRunsHold(v);
    var m, i, ve := Entries(tables, Some(mem)), Entries(tables, imm), VersionEntries(v);
    var runs := FileEntries(v[0]) + DeeperRuns(v, 1);
    NewerThanAllDiffers(m, SetOf(i) + ve);
    NewerThanAllDiffers(i, ve);
    OneRun(m);
    assert Held(tables, mem, imm, v) == SetOf(m) + (SetOf(i) + ve);
    if imm.Some? {
      OneRun(i);
      JoinRuns([i], runs, SetOf(i), ve);
      JoinRuns([m], [i] + runs, SetOf(m), SetOf(i) + ve);
      assert ChildRuns(tables, mem, imm, v) == [m] + ([i] + runs);
    } else {
      assert SetOf(i) + ve == ve;
      JoinRuns([m], runs, SetOf(m), ve);
      assert ChildRuns(tables, mem, imm, v) == [m] + runs;
    }
  }

  /** The rows of an iterator over these children at sequence number s. */
  ghost function RowsAt(tables: map<nat, MemTable>, mem: nat, imm: Option<nat>, v: Version, s: nat): seq<Row> {
    AllRows(Merged(ChildRuns(tables, mem, imm, v)), s)
  }

  /** One row for each user key that h holds at s, in order, with its value. */
  ghost predicate ShowsHistory(rows: seq<Row>, h: Log, s: nat)
    requires s <= |h|
  {
    (forall i, j :: 0 <= i < j < |rows| ==> rows[i].user < rows[j].user) &&
    forall u, v :: Row(u, v) in rows <==> Lookup(h, u, s) == Some(v)
  }

  /** The rows are what Get finds for each key. */
  lemma RowsAreGets(tables: map<nat, MemTable>, mem: nat, imm: Option<nat>, v: Version, h: Log, s: nat)
    requires Layered(tables, mem, imm, v, h)
    ensures Mergeable(ChildRuns(tables, mem, imm, v))
    ensures var rows := RowsAt(tables, mem, imm, v, s);
      (forall i, j :: 0 <= i < j < |rows| ==> rows[i].user < rows[j].user) &&
      forall u, x :: Row(u, x) in rows <==> Get(Entries(tables, Some(mem)), Entries(tables, imm), v, u, s) == Some(x)
  {
    hide Get, Merged, View, AllRows, ChildRuns, AllWrittenBy, Mergeable, VersionOk, AllSorted, Sorted, NewerThanAll,
      Contents, VersionEntries;
    ChildRunsHold(tables, mem, imm, v, h);
    var es, c := Merged(ChildRuns(tables, mem, imm, v)), Held(tables, mem, imm, v);
    MergedSpec(ChildRuns(tables, mem, imm, v));
    MergedHolds(ChildRuns(tables, mem, imm, v), c);
    RowsAreTheView(es, h, s);
    forall u ensures Get(Entries(tables, Some(mem)), Entries(tables, imm), v, u, s) == View(c, u, s) {
      GetIsView(Entries(tables, Some(mem)), Entries(tables, imm), v, h, u, s);
    }
  }

  /** In every reachable state, an iterator at the latest sequence number or at a live snapshot has
      one row for each user key that the flat history holds there, in order, with its value. */
  lemma ScanSeesHistory(states: seq<Db>, steps: seq<Step>, n: nat, s: nat)
    requires Run(states, steps) && ClosedRun(states, steps) && n < |states|
    requires s == states[n].last || s in states[n].snapshots
    ensures var db := states[n];
      s <= |db.hist| && Mergeable(ChildRuns(db.tables, db.mem, db.imm, db.version)) &&
      ShowsHistory(RowsAt(db.tables, db.mem, db.imm, db.version, s), db.hist, s)
  {
    hide Next, OutputLevelClosed, Init, ClosedRun, SafeRun, Get, Basics, MemTablesOk, TablesOk, DurableOk, LogsOk,
      LogNumbersOk, JobOk, VersionNumbers, Lookup, RowsAt, ChildRuns, Mergeable, Layered;
    var db := states[n];
    RunKeepsInvariant(states, steps, n);
    DatabaseIsLayered(db);
    RowsAreGets(db.tables, db.mem, db.imm, db.version, Full(db), s);
    RunReadsSeeHistory(states, steps, n, 0, s);
    forall u ensures GetAt(db, u, s) == Lookup(db.hist, u, s) { RunReadsSeeHistory(states, steps, n, u, s); }
  }

  lemma MergedHolds(runs: seq<seq<Entry>>, c: set<Entry>)
    requires HoldExactly(runs, c)
    ensures SetOf(Merged(runs)) == c
  {
    hide Mergeable, Merged;
    MergedSpec(runs);
    forall e ensures e in Merged(runs) <==> e in c { assert e in Merged(runs) <==> InSomeRun(runs, e); }
  }
}
