/** The state machine is never stuck: any group can be written, any memtable flushed, and a compaction run
    from any file. */
module LsmProgress {
  import opened Keys
  import opened History
  import opened Files
  import opened Ranges
  import opened Builder
  import opened Reads
  import opened Pick
  import opened CompactionWork
  import opened Layout
  import opened Merging
  import opened Lsm
  import opened LsmInvariant
  import opened LsmFlush
  import opened LsmCompact
  import opened LsmRuns
  import opened Scan

  /** From db, some steps lead to db'. */
  ghost predicate Leads(db: Db, states: seq<Db>, steps: seq<Step>, db': Db) {
    |states| == |steps| + 1 && states[0] == db && states[|steps|] == db' &&
    forall i :: 0 <= i < |steps| ==> Next(states[i], states[i + 1], steps[i])
  }

  lemma LeadsEnds(db: Db, states: seq<Db>, steps: seq<Step>, db': Db)
    requires Leads(db, states, steps, db')
    ensures |states| == |steps| + 1 && states[0] == db && states[|steps|] == db'
  {
    hide Next;
  }

  lemma Onward(db: Db, db1: Db, step: Step, states: seq<Db>, steps: seq<Step>, db': Db)
    requires Next(db, db1, step) && Leads(db1, states, steps, db')
    ensures Leads(db, [db] + states, [step] + steps, db')
  {
    hide Next;
    var ss, ts := [db] + states, [step] + steps;
    forall i | 0 <= i < |ts| ensures Next(ss[i], ss[i + 1], ts[i]) {
      if i > 0 { assert Next(states[i - 1], states[i], steps[i - 1]); }
    }
  }

  /** Writing changes the history, the memtable and its log. */
  ghost predicate OnlyWrites(db: Db, db': Db) {
    db'.mem == db.mem && db'.imm == db.imm && db'.version == db.version && db'.nextFile == db.nextFile && db'.snapshots == db.snapshots &&
    db'.job == db.job && db'.readers == db.readers && db'.manifest == db.manifest && db'.group.None? &&
    db.mem in db.tables && db.mem in db'.tables && db'.tables[db.mem].after == db.tables[db.mem].after
  }

  /** The rest of a logged group is inserted and committed. */
  lemma {:induction false} GroupCompletes(db: Db) returns (states: seq<Db>, steps: seq<Step>, db': Db)
    requires db.last == |db.hist| && db.mem in db.tables && db.mem in db.logs
    requires db.group.Some? && db.group.value.logged && Inserted(db) <= |GroupOps(db)|
    ensures Leads(db, states, steps, db') && db'.hist == db.hist + GroupOps(db) && OnlyWrites(db, db') && db'.last == |db'.hist|
    ensures forall s :: s in steps ==> s.InsertNext? || s.CommitGroup?
    decreases |GroupOps(db)| - Inserted(db)
  {
    if Inserted(db) == |GroupOps(db)| {
      db' := CommitGroupOp(db);
      states, steps := [db, db'], [CommitGroup];
    } else {
      var db1 := InsertNextOp(db);
      assert Next(db, db1, InsertNext);
      states, steps, db' := GroupCompletes(db1);
      Onward(db, db1, InsertNext, states, steps, db');
      states, steps := [db] + states, [InsertNext] + steps;
    }
  }

  /** When no group is in flight, any operations can be written. */
  lemma WriteIsPossible(db: Db, ops: Log) returns (states: seq<Db>, steps: seq<Step>, db': Db)
    requires Invariant(db) && db.group.None? && db.last + |ops| < MAX_SEQUENCE
    ensures Leads(db, states, steps, db') && db'.hist == db.hist + ops && OnlyWrites(db, db') && db'.last == |db'.hist|
    ensures forall s :: s in steps ==> s.BeginGroup? || s.LogGroup? || s.InsertNext? || s.CommitGroup?
  {
    hide Invariant, Next, OnlyWrites;
    var db1, db2 := GroupIsLogged(db, ops);
    states, steps, db' := GroupCompletes(db2);
    WritesFollow(db, ops, db2, db');
    Onward(db1, db2, LogGroup, states, steps, db');
    states, steps := [db1] + states, [LogGroup] + steps;
    Onward(db, db1, BeginGroup(ops), states, steps, db');
    states, steps := [db] + states, [BeginGroup(ops)] + steps;
  }

  /** A group begins, and its record is written. */
  lemma GroupIsLogged(db: Db, ops: Log) returns (db1: Db, db2: Db)
    requires Invariant(db) && db.group.None? && db.last + |ops| < MAX_SEQUENCE
    ensures Next(db, db1, BeginGroup(ops)) && Next(db1, db2, LogGroup) && db2 == db.(group := Some(Group(ops, true, 0)), logs := db2.logs)
    ensures db.last == |db.hist| && db.mem in db.tables && db.mem in db2.logs
  {
    hide TablesOk, DurableOk, MemTablesOk, LogsOk, LogNumbersOk, SnapshotsOk, JobOk, LiveFiles, Recovers;
    db1 := BeginGroupOp(db, ops);
    db2 := LogGroupOp(db1);
  }

  lemma WritesFollow(db: Db, ops: Log, db2: Db, db': Db)
    requires db2 == db.(group := Some(Group(ops, true, 0)), logs := db2.logs) && OnlyWrites(db2, db')
    ensures OnlyWrites(db, db') && GroupOps(db2) == ops
  {
  }

  /** An immutable memtable can always be flushed, at least to level 0. */
  lemma FlushIsPossible(db: Db, size: nat) returns (db': Db)
    requires Invariant(db) && db.imm.Some?
    ensures Next(db, db', Flush(0, size, db.last)) && db'.imm.None?
  {
    hide VersionNumbers, TablesOk, DurableOk, MemTablesOk, JobOk, SnapshotsOk, LogsOk;
    FlushKeepsLogs(db);
    db' := FlushOp(db, 0, size, db.last);
  }

  // ------------------------------------------------------------ compactions

  /** PickCompaction may be asked. */
  lemma VersionIsPickable(db: Db)
    requires Invariant(db)
    ensures Pickable(db.version, db.hist)
  {
    hide DurableOk, LogsOk, LogNumbersOk, MemTablesOk, SnapshotsOk, VersionOk, NumbersOk, SortedFiles, VersionEntries,
      VersionNumbers, WrittenBy;
  }

  /** The children of MakeInputIterator: each file of level 0, elsewhere one run for all inputs of a level. */
  function InputRuns(c: nat, in0: seq<File>, in1: seq<File>): seq<seq<Entry>> {
    (if c == 0 then FileEntries(in0) else [Flatten(FileEntries(in0))]) + (if in1 == [] then [] else [Flatten(FileEntries(in1))])
  }

  /** The input iterator of a compaction has exactly the entries of its inputs, in order. */
  lemma InputRunsHold(v: Version, c: nat, in0: seq<File>, in1: seq<File>)
    requires VersionOk(v) && InputsOk(v, c, in0, in1) && Disjoint(in1) && (c > 0 ==> Disjoint(in0))
    ensures HoldExactly(InputRuns(c, in0, in1), EntriesOf(in0 + in1))
    ensures Sorted(Merged(InputRuns(c, in0, in1))) && SetOf(Merged(InputRuns(c, in0, in1))) == EntriesOf(in0 + in1)
  {
    hide HoldExactly, NoDuplicates, Disjoint, ValidFile, Before, Flatten, Merged, Sorted, EntriesOf, KeysDiffer;
    LevelInputs(v, c, in0, in1);
    if c == 0 {
      Level0RunsHold(in0);
    } else {
      RunHolds(in0);
    }
    JoinedEntries(in0, in1);
    if in1 == [] {
      var runs := if c == 0 then FileEntries(in0) else [Flatten(FileEntries(in0))];
      assert InputRuns(c, in0, in1) == runs && in0 + in1 == in0;
    } else {
      RunHolds(in1);
      JoinRuns(if c == 0 then FileEntries(in0) else [Flatten(FileEntries(in0))], [Flatten(FileEntries(in1))], EntriesOf(in0), EntriesOf(in1));
    }
    RunsMerge(InputRuns(c, in0, in1), EntriesOf(in0 + in1));
  }

  lemma RunsMerge(runs: seq<seq<Entry>>, c: set<Entry>)
    requires HoldExactly(runs, c)
    ensures Sorted(Merged(runs)) && SetOf(Merged(runs)) == c
  {
    hide Sorted, Merged, Mergeable;
    MergedSpec(runs);
    MergedHolds(runs, c);
  }

  lemma RunHolds(fs: seq<File>)
    requires AllValid(fs) && Disjoint(fs)
    ensures HoldExactly([Flatten(FileEntries(fs))], EntriesOf(fs))
  {
    hide HoldExactly, Disjoint, ValidFile, Flatten, Sorted, EntriesOf;
    LevelIsRun(fs);
    OneRun(Flatten(FileEntries(fs)));
    assert SetOf(Flatten(FileEntries(fs))) == EntriesOf(fs);
  }

  lemma JoinedEntries(a: seq<File>, b: seq<File>)
    ensures EntriesOf(a + b) == EntriesOf(a) + EntriesOf(b)
  {
    forall e | e in EntriesOf(a) + EntriesOf(b) ensures e in EntriesOf(a + b) {
      var f :| (f in a || f in b) && e in f.entries;
      assert f in a + b;
    }
  }

  lemma LevelInputs(v: Version, c: nat, in0: seq<File>, in1: seq<File>)
    requires VersionOk(v) && InputsOk(v, c, in0, in1)
    ensures AllValid(in0) && AllValid(in1) && NoDuplicates(in0) && (c == 0 ==> NumberOrder(in0))
    ensures KeysDiffer(EntriesOf(in0), EntriesOf(in1))
  {
    hide LeftoverNewer, OtherLevelClear, NoDuplicates, ValidFile, Disjoint;
    forall f, e | f in in0 && e in EntriesOf(in1) ensures OlderThan(e, f) {
      var g :| g in in1 && e in g.entries;
      assert f in v[c] && g in v[c + 1] && Newer(f, g);
    }
    NewerKeysDiffer(in0, EntriesOf(in1));
  }

  /** Entries the history wrote have numbers of their own. */
  lemma WrittenAreDistinct(es: seq<Entry>, h: Log)
    requires Sorted(es) && AllWrittenBy(SetOf(es), h)
    ensures DistinctSequences(es)
  {
    forall i, j | 0 <= i < j < |es| && es[i].key.user == es[j].key.user ensures es[i].key.sn != es[j].key.sn {
      assert es[i] in SetOf(es) && es[j] in SetOf(es);
      assert Less(es[i].key, es[j].key);
    }
  }

  predicate Follows(i: nat, n: nat, k: nat) {
    n <= i < n + k
  }

  /** The k numbers from n on. */
  function NumbersFrom(n: nat, k: nat): set<nat> {
    set i: nat | i < n + k && Follows(i, n, k)
  }

  /** db with k more output files open. */
  function Opened(db: Db, k: nat): Db
    requires db.job.Some?
  {
    db.(job := Some(db.job.value.(pending := db.job.value.pending + NumbersFrom(db.nextFile, k))),
        nextFile := db.nextFile + k, files := db.files + NumbersFrom(db.nextFile, k))
  }

  lemma {:induction false} OutputsOpen(db: Db, k: nat) returns (states: seq<Db>, steps: seq<Step>)
    requires db.last == |db.hist| && db.mem in db.tables && db.mem in db.logs && db.job.Some?
    ensures Leads(db, states, steps, Opened(db, k)) && forall s :: s in steps ==> s.OpenOutput?
    decreases k
  {
    if k == 0 {
      assert NumbersFrom(db.nextFile, 0) == {};
      assert db.job.value.pending + {} == db.job.value.pending && db.files + {} == db.files;
      assert Opened(db, 0) == db;
      states, steps := [db], [];
    } else {
      var db1 := Opened(db, 1);
      assert NumbersFrom(db.nextFile, 1) == {db.nextFile};
      assert Next(db, db1, OpenOutput);
      states, steps := OutputsOpen(db1, k - 1);
      assert NumbersFrom(db.nextFile, 1) + NumbersFrom(db1.nextFile, k - 1) == NumbersFrom(db.nextFile, k);
      assert db.job.value.pending + NumbersFrom(db.nextFile, 1) + NumbersFrom(db1.nextFile, k - 1) == db.job.value.pending + NumbersFrom(db.nextFile, k);
      assert db.files + NumbersFrom(db.nextFile, 1) + NumbersFrom(db1.nextFile, k - 1) == db.files + NumbersFrom(db.nextFile, k);
      Onward(db, db1, OpenOutput, states, steps, Opened(db, k));
      states, steps := [db] + states, [OpenOutput] + steps;
    }
  }

  /** The tables of a compaction's outputs, numbered as they were ready. */
  function OutputFiles(outputs: seq<seq<Entry>>, n: nat, size: nat -> nat): (r: seq<File>)
    requires forall i :: 0 <= i < |outputs| ==> outputs[i] != []
    ensures |r| == |outputs|
    ensures forall i :: 0 <= i < |r| ==> r[i].number == n + i && r[i].entries == outputs[i] && r[i] == TableOf(r[i].number, r[i].size, r[i].entries)
  {
    if outputs == [] then []
    else
      var last := |outputs| - 1;
      OutputFiles(outputs[..last], n, size) + [TableOf(n + last, size(last), outputs[last])]
  }

  lemma OutputsFit(j: Job, input: seq<Entry>, outputs: seq<seq<Entry>>, n: nat, size: nat -> nat)
    requires Sorted(input) && SetOf(input) == InputEntries(j) && AllNonempty(outputs)
    requires Flatten(outputs) == Survivors(input, SetOf(input), j.snap, JobBase(j)) && j.pending == NumbersFrom(n, |outputs|)
    ensures (forall i :: 0 <= i < |outputs| ==> outputs[i] != []) && OutputsOf(j, input, OutputFiles(outputs, n, size))
  {
    hide Sorted, InputEntries, Flatten, Survivors, JobBase, OutputFiles, Numbers;
    forall i | 0 <= i < |outputs| ensures outputs[i] != [] { assert outputs[i] in outputs; }
    FilesOfOutputs(outputs, n, size);
  }

  lemma NumberFollows(n: nat, i: nat, k: nat)
    requires i < k
    ensures n + i in NumbersFrom(n, k)
  {
  }

  lemma FilesOfOutputs(outputs: seq<seq<Entry>>, n: nat, size: nat -> nat)
    requires forall i :: 0 <= i < |outputs| ==> outputs[i] != []
    ensures var outs := OutputFiles(outputs, n, size);
      FileEntries(outs) == outputs && (forall o :: o in outs ==> o.entries != [] && o == TableOf(o.number, o.size, o.entries)) &&
      EachNumberOnce(outs) && Numbers(outs) <= NumbersFrom(n, |outputs|)
  {
    hide Follows, OutputFiles;
    var outs := OutputFiles(outputs, n, size);
    assert FileEntries(outs) == outputs;
    forall o | o in outs ensures o.entries != [] && o == TableOf(o.number, o.size, o.entries) && o.number in NumbersFrom(n, |outputs|) {
      var i :| 0 <= i < |outs| && outs[i] == o;
      NumberFollows(n, i, |outputs|);
    }
  }

  /** Steps one after another. */
  lemma Further(db: Db, states: seq<Db>, steps: seq<Step>, db1: Db, step: Step, db': Db)
    requires Leads(db, states, steps, db1) && Next(db1, db', step)
    ensures Leads(db, states + [db'], steps + [step], db')
  {
    hide Next;
    var ss, ts := states + [db'], steps + [step];
    forall i | 0 <= i < |ts| ensures Next(ss[i], ss[i + 1], ts[i]) {
      if i < |steps| { assert Next(states[i], states[i + 1], steps[i]); }
    }
  }

  lemma ReadyToWork(db: Db, c: nat, in0: seq<File>, in1: seq<File>)
    requires Invariant(db) && InputsOk(db.version, c, in0, in1) && Disjoint(in1) && (c > 0 ==> Disjoint(in0))
    ensures var input := Merged(InputRuns(c, in0, in1));
      Sorted(input) && DistinctSequences(input) && SetOf(input) == EntriesOf(in0 + in1)
    ensures MinLive(db) < MAX_SEQUENCE && DeeperLevelsOk(db.version)
  {
    hide DurableOk, LogsOk, LogNumbersOk, MemTablesOk, NumbersOk, AllSorted, VersionNumbers, EntriesOf, VersionEntries, Merged, Sorted,
         DistinctSequences, WrittenBy, InputsOk, Disjoint, HoldExactly, NumberOrder, LevelOrder, InputRuns;
    InputRunsHold(db.version, c, in0, in1);
    InputEntriesAreHeld(db.version, c, in0, in1);
    WrittenAreDistinct(Merged(InputRuns(c, in0, in1)), db.hist);
    MinLiveIsLeast(db);
  }

  /** Started, worked and installed: f has left its level, and nothing written is lost from the history. */
  lemma InstalledFromJob(db2: Db, db': Db, j: Job, input: seq<Entry>, outs: seq<File>, m: Marks)
    requires Invariant(db2) && db2.job == Some(j) && Next(db2, db', InstallCompaction(input, outs, m))
    ensures OnlyCompacts(db2, db') && WithMoved(db2.version, db'.version, j.level, j.in0, j.in1, outs)
  {
    hide Invariant, OutputsOf, EditVersion, WithMoved, Recovers, Replay, VersionNumbers;
    InstalledVersion(db2, InstallEdit(db2, j, outs, m), j, input, outs, m);
  }

  /** Only the levels change, and what keeps account of them. */
  ghost predicate OnlyCompacts(db: Db, db': Db) {
    db'.job.None? && db'.hist == db.hist && db'.tables == db.tables && db'.mem == db.mem && db'.imm == db.imm && db'.nextFile == db.nextFile &&
    db'.snapshots == db.snapshots && db'.group == db.group
  }

  lemma LeftItsLevel(v: Version, v': Version, c: nat, in0: seq<File>, in1: seq<File>, outs: seq<File>, f: File)
    requires WithMoved(v, v', c, in0, in1, outs) && f in in0
    ensures f !in v'[c]
  {
  }

  /** From any file of any level but the last, a compaction can be picked, started, worked and installed. */
  method Compact(db: Db, c: nat, f: File, sizeLimit: nat, stopBefore: nat -> bool, full: seq<Entry> -> bool, size: nat -> nat)
    returns (outs: seq<File>, ghost states: seq<Db>, ghost steps: seq<Step>, ghost db': Db)
    requires Invariant(db) && db.imm.None? && db.job.None? && c + 1 < NUM_LEVELS && f in db.version[c]
    ensures Leads(db, states, steps, db') && Invariant(db') && db'.job.None? && db'.hist == db.hist
    ensures f !in db'.version[c] && |steps| > 0 && steps[|steps| - 1].InstallCompaction? && steps[|steps| - 1].outs == outs
  {
    hide Invariant, Pickable, InputsOk, NoGap, EntriesOf, Merged, InputRuns, Sorted, DistinctSequences, Disjoint, Next, Leads,
         Flatten, Survivors, AllNonempty, OutputsOf, DeeperLevelsOk;
    VersionIsPickable(db);
    var in0, in1 := PickCompaction(db.version, c, f, sizeLimit, db.hist);
    ReadyToWork(db, c, in0, in1);
    var input := Merged(InputRuns(c, in0, in1));
    var outputs := DoCompactionWork(input, MinLive(db), db.version, c, stopBefore, full);
    states, steps, db' := CompactionSteps(db, c, in0, in1, input, outputs, size);
    outs := OutputFiles(outputs, db.nextFile, size);
    LeftItsLevel(db.version, db'.version, c, in0, in1, outs, f);
  }

  lemma StartIsStep(db: Db, db1: Db, j: Job)
    requires Invariant(db) && db.imm.None? && db.job.None? && db1 == db.(job := Some(j))
    requires j == Job(j.level, j.in0, j.in1, MinLive(db), db.version, {}) && InputsOk(db.version, j.level, j.in0, j.in1) && NoGap(j.in0 + j.in1)
    ensures Next(db, db1, StartCompaction(j.level, j.in0, j.in1))
    ensures db1.last == |db1.hist| && db1.mem in db1.tables && db1.mem in db1.logs
  {
    hide InputsOk, NoGap, TablesOk, DurableOk, MemTablesOk, LogsOk, LogNumbersOk, SnapshotsOk, VersionNumbers, Recovers;
  }

  lemma InstallIsStep(db: Db, j: Job, input: seq<Entry>, outs: seq<File>) returns (db': Db)
    requires Invariant(db) && db.job == Some(j) && OutputsOf(j, input, outs)
    ensures Next(db, db', InstallCompaction(input, outs, Now(db)))
  {
    hide OutputsOf, TablesOk, DurableOk, MemTablesOk, LogsOk, LogNumbersOk, SnapshotsOk, JobOk, VersionNumbers,
      Recovers, EditVersion, InstallEdit, MarksOk;
    NowIsOk(db);
    db' := LogAndApply(db, InstallEdit(db, j, outs, Now(db))).(job := None);
  }

  /** Only pending outputs are added. */
  lemma SameJob(j: Job, ready: Job)
    requires ready == j.(pending := ready.pending)
    ensures InputEntries(ready) == InputEntries(j) && JobBase(ready) == JobBase(j)
  {
  }

  /** Steps keep the invariant. */
  lemma {:induction false} LeadsKeeps(db: Db, states: seq<Db>, steps: seq<Step>, db': Db)
    requires Invariant(db) && Leads(db, states, steps, db')
    ensures Invariant(db')
    decreases |steps|
  {
    hide Invariant, Next, SafeToInstall, ReadsRight, ReadersRight;
    if steps != [] {
      var n := |steps| - 1;
      assert Next(states[n], states[n + 1], steps[n]);
      forall i | 0 <= i < n ensures Next(states[..n + 1][i], states[..n + 1][i + 1], steps[..n][i]) {
        assert Next(states[i], states[i + 1], steps[i]);
      }
      LeadsKeeps(db, states[..n + 1], steps[..n], states[n]);
      StepKeeps(states[n], db', steps[n]);
    }
  }

  /** Started, and all its output files ready. */
  lemma WorkSteps(db: Db, db1: Db, j: Job, input: seq<Entry>, outputs: seq<seq<Entry>>, size: nat -> nat)
    returns (states: seq<Db>, steps: seq<Step>, ready: Job, outs: seq<File>, db2: Db)
    requires Invariant(db) && db.imm.None? && db.job.None? && db1 == db.(job := Some(j))
    requires j == Job(j.level, j.in0, j.in1, MinLive(db), db.version, {}) && InputsOk(db.version, j.level, j.in0, j.in1) && NoGap(j.in0 + j.in1)
    requires Sorted(input) && SetOf(input) == InputEntries(j) && AllNonempty(outputs)
    requires Flatten(outputs) == Survivors(input, SetOf(input), j.snap, JobBase(j))
    ensures (forall i :: 0 <= i < |outputs| ==> outputs[i] != []) && outs == OutputFiles(outputs, db.nextFile, size)
    ensures Leads(db, states, steps, db2) && Invariant(db2) && db2.job == Some(ready) && db2.hist == db.hist
    ensures ready == j.(pending := NumbersFrom(db.nextFile, |outputs|)) && OutputsOf(ready, input, outs) && db2 == Opened(db1, |outputs|)
    ensures |steps| > 0 && steps[0] == StartCompaction(j.level, j.in0, j.in1) && forall i :: 0 < i < |steps| ==> steps[i].OpenOutput?
  {
    hide Sorted, Flatten, Survivors, AllNonempty, InputsOk, NoGap, InputEntries, JobBase, Invariant, Next, Leads, OutputsOf, OutputFiles;
    var k := |outputs|;
    db2 := Opened(db1, k);
    ready := db2.job.value;
    StartIsStep(db, db1, j);
    states, steps := OutputsOpen(db1, k);
    Onward(db, db1, StartCompaction(j.level, j.in0, j.in1), states, steps, db2);
    states, steps := [db] + states, [StartCompaction(j.level, j.in0, j.in1)] + steps;
    LeadsKeeps(db, states, steps, db2);
    assert {} + NumbersFrom(db.nextFile, k) == NumbersFrom(db.nextFile, k);
    SameJob(j, ready);
    OutputsFit(ready, input, outputs, db.nextFile, size);
    outs := OutputFiles(outputs, db.nextFile, size);
  }

  lemma CompactionSteps(db: Db, c: nat, in0: seq<File>, in1: seq<File>, input: seq<Entry>, outputs: seq<seq<Entry>>, size: nat -> nat)
    returns (states: seq<Db>, steps: seq<Step>, db': Db)
    requires Invariant(db) && db.imm.None? && db.job.None? && InputsOk(db.version, c, in0, in1) && NoGap(in0 + in1)
    requires Sorted(input) && SetOf(input) == EntriesOf(in0 + in1) && AllNonempty(outputs)
    requires Flatten(outputs) == Survivors(input, SetOf(input), MinLive(db), BaseOf(db.version, c))
    ensures forall i :: 0 <= i < |outputs| ==> outputs[i] != []
    ensures Leads(db, states, steps, db') && Invariant(db') && OnlyCompacts(db.(nextFile := db.nextFile + |outputs|), db')
    ensures WithMoved(db.version, db'.version, c, in0, in1, OutputFiles(outputs, db.nextFile, size))
    ensures |steps| > 1 && steps[0] == StartCompaction(c, in0, in1) && forall i :: 0 < i < |steps| - 1 ==> steps[i].OpenOutput?
    ensures steps[|steps| - 1] == InstallCompaction(input, OutputFiles(outputs, db.nextFile, size), Now(states[|steps| - 1]))
  {
    hide Invariant, Next, InputsOk, NoGap, EntriesOf, Sorted, Flatten, Survivors, AllNonempty, Leads, OutputsOf, BaseOf,
      SafeToInstall, ReadsRight, ReadersRight;
    var j := Job(c, in0, in1, MinLive(db), db.version, {});
    var db1 := db.(job := Some(j));
    var ready, outs, db2;
    states, steps, ready, outs, db2 := WorkSteps(db, db1, j, input, outputs, size);
    LeadsEnds(db, states, steps, db2);
    db' := InstallIsStep(db2, ready, input, outs);
    var install := InstallCompaction(input, outs, Now(db2));
    InstalledFromJob(db2, db', ready, input, outs, Now(db2));
    InstallKeeps(db2, db', input, outs, Now(db2));
    Further(db, states, steps, db2, install, db');
    states, steps := states + [db'], steps + [install];
  }
}
