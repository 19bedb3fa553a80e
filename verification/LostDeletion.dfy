/** A run of the database that loses a deletion: flushes to the levels and compactions with the inputs and the outputs
    that the code picks, one of them while a snapshot is held, after which a deleted value is read again. */
module LostDeletion {
  import opened Keys
  import opened History
  import opened Files
  import opened Ranges
  import opened Builder
  import opened Reads
  import opened Pick
  import opened CompactionWork
  import opened Layout
  import opened Lsm
  import opened LsmInvariant
  import opened LsmFlush
  import opened LsmRuns
  import opened LsmProgress
  import opened Closure
  import LogRecovery

  /** Nothing is in flight and the memtable is empty. */
  ghost predicate Quiet(db: Db, h: Log, v: Version, snapshots: seq<nat>, n: nat) {
    Invariant(db) && db.hist == h && db.version == v && db.snapshots == snapshots && db.nextFile == n &&
    db.group.None? && db.imm.None? && db.job.None? && db.mem in db.tables && db.tables[db.mem].after == |h|
  }

  // ------------------------------------------------------------ what the code picks

  function AtLimit(w: Case, limit: nat): seq<Entry> -> bool {
    es => w.grown(es) >= limit
  }

  /** The range of level c that the only file of the level above covers, and nothing further down, where the outputs
      would have to stop. */
  ghost predicate AsPicked(v: Version, c: nat, in0: seq<File>, in1: seq<File>) {
    c > 0 && c + 1 < NUM_LEVELS && |in0| == 1 && v[c] == in0 &&
    in1 == Touching(v[c + 1], Some(in0[0].smallest.user), Some(in0[0].largest.user)) && in1 != [] &&
    forall l: nat :: c + 1 < l < NUM_LEVELS ==> v[l] == []
  }

  /** Memtables go to the deepest level that is not blocked, compactions take in the files touching their range, and output
      files are closed when they have reached the limit. */
  ghost predicate AsCode(db: Db, step: Step, w: Case, limit: nat) {
    match step
    case Flush(level, size, last) =>
      var es := Entries(db.tables, db.imm);
      es != [] && last == db.last && size == w.size(es) && DeepestOpen(db.version, es[0].key.user, es[|es| - 1].key.user, level, 10 * limit)
    case StartCompaction(c, in0, in1) => AsPicked(db.version, c, in0, in1)
    case InstallCompaction(_, outs, m) =>
      m == Now(db) && CutWhenFull(FileEntries(outs), AtLimit(w, limit)) && forall o :: o in outs ==> o.size == w.size(o.entries)
    case TrivialMove(_, _, _) => false
    case _ => true
  }

  ghost predicate RunAsCode(states: seq<Db>, steps: seq<Step>, w: Case, limit: nat) {
    |states| == |steps| + 1 && forall i :: 0 <= i < |steps| ==> AsCode(states[i], steps[i], w, limit)
  }

  /** From db, some steps as the code picks them lead to db'. */
  ghost predicate Goes(db: Db, states: seq<Db>, steps: seq<Step>, db': Db, w: Case, limit: nat) {
    Leads(db, states, steps, db') && RunAsCode(states, steps, w, limit)
  }

  lemma Joined(db: Db, states: seq<Db>, steps: seq<Step>, mid: Db, more: seq<Db>, moreSteps: seq<Step>, db': Db, w: Case, limit: nat)
    requires Goes(db, states, steps, mid, w, limit) && Goes(mid, more, moreSteps, db', w, limit)
    ensures more != [] && Goes(db, states + more[1..], steps + moreSteps, db', w, limit)
  {
    hide Next, AsCode;
    var ss, ts := states + more[1..], steps + moreSteps;
    forall i | 0 <= i < |ts| ensures Next(ss[i], ss[i + 1], ts[i]) && AsCode(ss[i], ts[i], w, limit) {
      if i < |steps| {
        assert Next(states[i], states[i + 1], steps[i]);
      } else {
        var k := i - |steps|;
        assert Next(more[k], more[k + 1], moreSteps[k]);
        assert ss[i] == more[k] && ss[i + 1] == more[k + 1];
      }
    }
  }

  lemma GoesOn(db: Db, states: seq<Db>, steps: seq<Step>, mid: Db, step: Step, db': Db, w: Case, limit: nat)
    requires Goes(db, states, steps, mid, w, limit) && Next(mid, db', step) && AsCode(mid, step, w, limit)
    ensures Goes(db, states + [db'], steps + [step], db', w, limit)
  {
    hide Next, AsCode;
    Further(db, states, steps, mid, step, db');
    forall i | 0 <= i < |steps + [step]| ensures AsCode((states + [db'])[i], (steps + [step])[i], w, limit) {
      if i < |steps| { assert AsCode(states[i], steps[i], w, limit); }
    }
  }

  // ------------------------------------------------------------ memtables

  lemma HeadIsFirst(a: seq<Entry>)
    requires Sorted(a) && a != []
    ensures Sorted(a[1..]) && forall e :: e in a[1..] <==> e in a && e != a[0]
    ensures forall e :: e in a && e != a[0] ==> Less(a[0].key, e.key)
  {
    forall e | e in a && e != a[0] ensures e in a[1..] && Less(a[0].key, e.key) {
      var i :| 0 <= i < |a| && a[i] == e;
      assert a[1..][i - 1] == e;
    }
    forall e | e in a[1..] ensures e in a && e != a[0] {
      var i :| 0 <= i < |a| - 1 && a[1..][i] == e;
      assert Less(a[0].key, a[i + 1].key);
    }
  }

  lemma {:induction false} SameEntries(a: seq<Entry>, b: seq<Entry>)
    requires Sorted(a) && Sorted(b) && forall e :: e in a <==> e in b
    ensures a == b
  {
    hide Sorted;
    assert (a != [] ==> a[0] in b) && (b != [] ==> b[0] in a);
    if a != [] {
      HeadIsFirst(a);
      HeadIsFirst(b);
      assert a[0] == b[0];
      SameEntries(a[1..], b[1..]);
    }
  }

  /** A memtable is determined by the stretch of the history it holds. */
  lemma MemIsUnique(a: seq<Entry>, b: seq<Entry>, after: nat, h: Log, hi: nat)
    requires MemOk(MemTable(a, after), h, hi) && MemOk(MemTable(b, after), h, hi)
    ensures a == b
  {
    hide Sorted, EntryOf;
    forall e ensures e in a <==> e in b {
      assert e in a ==> EntryOf(h, e.key.sn) in b;
      assert e in b ==> EntryOf(h, e.key.sn) in a;
    }
    SameEntries(a, b);
  }

  // ------------------------------------------------------------ whole operations

  /** The memtable after a group, and the one the next writes go to. */
  lemma WrittenMem(db: Db, after: nat, h: Log)
    requires Invariant(db) && db.group.None? && db.hist == h && db.mem in db.tables && db.tables[db.mem].after == after
    ensures MemOk(db.tables[db.mem], h, |h|) && db.last == |h| && db.mem in db.logs
  {
    hide TablesOk, DurableOk, LogsOk, LogNumbersOk, SnapshotsOk, JobOk, VersionNumbers, MemOk;
    assert Full(db) == h;
  }

  lemma WritesAreAsCode(states: seq<Db>, steps: seq<Step>, w: Case, limit: nat)
    requires |states| == |steps| + 1 && forall s :: s in steps ==> s.BeginGroup? || s.LogGroup? || s.InsertNext? || s.CommitGroup?
    ensures RunAsCode(states, steps, w, limit)
  {
    forall i | 0 <= i < |steps| ensures AsCode(states[i], steps[i], w, limit) { assert steps[i] in steps; }
  }

  /** A group is written, and its memtable flushed to a level. */
  lemma WriteAndFlush(db: Db, h: Log, v: Version, snapshots: seq<nat>, n: nat, ops: Log, es: seq<Entry>, level: nat, v': Version, w: Case, limit: nat)
    returns (states: seq<Db>, steps: seq<Step>, db': Db)
    requires Quiet(db, h, v, snapshots, n) && |h| + |ops| < MAX_SEQUENCE && level < NUM_LEVELS
    requires es != [] && MemOk(MemTable(es, |h|), h + ops, |h + ops|)
    requires DeepestOpen(v, es[0].key.user, es[|es| - 1].key.user, level, 10 * limit) && WithFile(v, v', level, Sized(n + 1, es, w))
    ensures Goes(db, states, steps, db', w, limit) && Quiet(db', h + ops, v', snapshots, n + 2)
  {
    hide Invariant, MemOk, FlushLevelOk, WithFile, Leads, EditVersion, Next, AllSorted, NumbersOk, RunAsCode, DeepestOpen;
    WrittenMem(db, |h|, h);
    var db1;
    states, steps, db1 := WriteIsPossible(db, ops);
    LeadsKeeps(db, states, steps, db1);
    assert |states| == |steps| + 1 by { LeadsEnds(db, states, steps, db1); }
    WritesAreAsCode(states, steps, w, limit);
    WrittenMem(db1, |h|, h + ops);
    MemIsUnique(es, db1.tables[db1.mem].entries, |h|, h + ops, |h + ops|);
    var db2 := SwitchIsStep(db1);
    GoesOn(db, states, steps, db1, SwitchMemTable, db2, w, limit);
    states, steps := states + [db2], steps + [SwitchMemTable];
    LeadsKeeps(db, states, steps, db2);
    FilesInOrder(db2);
    var size := w.size(es);
    db' := FlushIsStep(db2, es, level, v', size, w, limit);
    GoesOn(db, states, steps, db2, Flush(level, size, db2.last), db', w, limit);
    states, steps := states + [db'], steps + [Flush(level, size, db2.last)];
    LeadsKeeps(db, states, steps, db');
  }

  lemma FilesInOrder(db: Db)
    requires Invariant(db)
    ensures AllSorted(db.version) && NumbersOk(db.version, db.nextFile)
  {
    hide DurableOk, LogsOk, LogNumbersOk, SnapshotsOk, JobOk, VersionNumbers, MemTablesOk, VersionOk, AllSorted, NumbersOk;
  }

  lemma SwitchIsStep(db: Db) returns (db': Db)
    requires Invariant(db) && db.group.None? && db.imm.None?
    ensures Next(db, db', SwitchMemTable) && db' == SwitchOp(db) && db.mem in db.tables && db.mem < db.nextFile
  {
    hide TablesOk, DurableOk, LogsOk, LogNumbersOk, SnapshotsOk, JobOk, VersionNumbers, MemTablesOk;
    db' := SwitchOp(db);
  }

  lemma FlushIsStep(db: Db, es: seq<Entry>, level: nat, v': Version, size: nat, w: Case, limit: nat) returns (db': Db)
    requires db.imm.Some? && db.imm.value in db.tables && db.tables[db.imm.value].entries == es != [] && level < NUM_LEVELS
    requires db.last == |db.hist| && db.mem in db.tables && db.tables[db.mem].after <= db.last && db.mem in db.logs
    requires AllSorted(db.version) && NumbersOk(db.version, db.nextFile)
    requires DeepestOpen(db.version, es[0].key.user, es[|es| - 1].key.user, level, 10 * limit)
    requires WithFile(db.version, v', level, TableOf(db.nextFile, size, es)) && size == w.size(es)
    ensures Next(db, db', Flush(level, size, db.last)) && db' == FlushOp(db, level, size, db.last) && db'.version == v'
    ensures AsCode(db, Flush(level, size, db.last), w, limit)
  {
    hide EditVersion, WithFile, MissesAll, Blocked, Touching, AllSorted, NumbersOk;
    db' := FlushOp(db, level, size, db.last);
    var f := TableOf(db.nextFile, size, es);
    AddedFileLevels(db.version, db.nextFile, FlushEdit(db, level, size, db.last), level, f);
    SameWithFile(db.version, v', db'.version, level, f);
  }

  lemma SameWithFile(v: Version, a: Version, b: Version, level: nat, f: File)
    requires WithFile(v, a, level, f) && WithFile(v, b, level, f)
    ensures a == b
  {
    forall l: nat | l < NUM_LEVELS ensures a[l] == b[l] {
      assert LevelChange(v[l], a[l], [], if l == level then [f] else []) && LevelChange(v[l], b[l], [], if l == level then [f] else []);
      SortedFilesUnique(a[l], b[l]);
    }
  }

  lemma SameWithMoved(v: Version, a: Version, b: Version, c: nat, in0: seq<File>, in1: seq<File>, outs: seq<File>)
    requires WithMoved(v, a, c, in0, in1, outs) && WithMoved(v, b, c, in0, in1, outs)
    ensures a == b
  {
    forall l: nat | l < NUM_LEVELS ensures a[l] == b[l] {
      if l != c && l != c + 1 { assert LevelChange(v[l], a[l], [], []) && LevelChange(v[l], b[l], [], []); }
      SortedFilesUnique(a[l], b[l]);
    }
  }

  function SizeAt(outputs: seq<seq<Entry>>, w: Case, i: nat): nat {
    if i < |outputs| then w.size(outputs[i]) else 0
  }

  function SizesOf(outputs: seq<seq<Entry>>, w: Case): nat -> nat {
    (i: nat) => SizeAt(outputs, w, i)
  }

  /** A compaction is started, worked and installed. */
  lemma Compacts(db: Db, h: Log, v: Version, snapshots: seq<nat>, n: nat, c: nat, in0: seq<File>, in1: seq<File>,
                 input: seq<Entry>, outputs: seq<seq<Entry>>, v': Version, w: Case, limit: nat)
    returns (states: seq<Db>, steps: seq<Step>, db': Db)
    requires Quiet(db, h, v, snapshots, n) && InputsOk(v, c, in0, in1) && NoGap(in0 + in1) && AsPicked(v, c, in0, in1)
    requires Sorted(input) && SetOf(input) == EntriesOf(in0 + in1) && forall i :: 0 <= i < |outputs| ==> outputs[i] != []
    requires Flatten(outputs) == Survivors(input, SetOf(input), if snapshots == [] then |h| else snapshots[0], BaseOf(v, c))
    requires WithMoved(v, v', c, in0, in1, OutputFiles(outputs, n, SizesOf(outputs, w))) && CutWhenFull(outputs, AtLimit(w, limit))
    ensures Goes(db, states, steps, db', w, limit) && Quiet(db', h, v', snapshots, n + |outputs|)
  {
    hide Invariant, InputsOk, NoGap, Sorted, Flatten, Survivors, WithMoved, Leads, OutputFiles, EntriesOf, BaseOf,
      AsPicked, CutWhenFull, RunAsCode, SizesOf, AtLimit;
    LastIsCount(db);
    var size := SizesOf(outputs, w);
    states, steps, db' := CompactionSteps(db, c, in0, in1, input, outputs, size);
    SameWithMoved(v, v', db'.version, c, in0, in1, OutputFiles(outputs, n, size));
    LeadsEnds(db, states, steps, db');
    OutputsAsCut(outputs, n, w, limit);
    CompactionAsCode(states, steps, w, limit);
  }

  lemma {:induction false} OutputSizes(outputs: seq<seq<Entry>>, n: nat, size: nat -> nat)
    requires forall i :: 0 <= i < |outputs| ==> outputs[i] != []
    ensures forall i :: 0 <= i < |outputs| ==> OutputFiles(outputs, n, size)[i].size == size(i)
  {
    if outputs != [] {
      var last := |outputs| - 1;
      OutputSizes(outputs[..last], n, size);
      LastOutput(outputs, n, size);
      hide OutputFiles;
    }
  }

  lemma LastOutput(outputs: seq<seq<Entry>>, n: nat, size: nat -> nat)
    requires outputs != [] && forall i :: 0 <= i < |outputs| ==> outputs[i] != []
    ensures var last := |outputs| - 1;
      OutputFiles(outputs, n, size) == OutputFiles(outputs[..last], n, size) + [TableOf(n + last, size(last), outputs[last])]
  {
  }

  lemma OutputsAsCut(outputs: seq<seq<Entry>>, n: nat, w: Case, limit: nat)
    requires (forall i :: 0 <= i < |outputs| ==> outputs[i] != []) && CutWhenFull(outputs, AtLimit(w, limit))
    ensures var outs := OutputFiles(outputs, n, SizesOf(outputs, w));
      CutWhenFull(FileEntries(outs), AtLimit(w, limit)) && forall o :: o in outs ==> o.size == w.size(o.entries)
  {
    hide OutputFiles, CutWhenFull, AtLimit;
    var outs := OutputFiles(outputs, n, SizesOf(outputs, w));
    OutputSizes(outputs, n, SizesOf(outputs, w));
    assert FileEntries(outs) == outputs;
  }

  lemma CompactionAsCode(states: seq<Db>, steps: seq<Step>, w: Case, limit: nat)
    requires |states| == |steps| + 1 && |steps| > 1 && steps[0].StartCompaction? && (forall i :: 0 < i < |steps| - 1 ==> steps[i].OpenOutput?)
    requires AsPicked(states[0].version, steps[0].c, steps[0].in0, steps[0].in1)
    requires steps[|steps| - 1].InstallCompaction? && steps[|steps| - 1].marks == Now(states[|steps| - 1])
    requires var outs := steps[|steps| - 1].outs;
      CutWhenFull(FileEntries(outs), AtLimit(w, limit)) && forall o :: o in outs ==> o.size == w.size(o.entries)
    ensures RunAsCode(states, steps, w, limit)
  {
    hide AsPicked, CutWhenFull, AtLimit;
  }

  lemma LastIsCount(db: Db)
    requires Invariant(db)
    ensures db.last == |db.hist|
  {
    hide TablesOk, DurableOk, LogsOk, LogNumbersOk, SnapshotsOk, JobOk, VersionNumbers, MemTablesOk;
  }

  // ------------------------------------------------------------ the run

  /** The third entry is the one with which an output reaches the limit. */
  ghost predicate FillsUp(w: Case, limit: nat) {
    w.grown([E3(w)]) < limit && w.grown([E3(w), E4(w)]) < limit <= w.grown([E3(w), E4(w), E2]) &&
    w.size([E3(w), E4(w), E2]) <= 10 * limit && w.size([E1]) <= 10 * limit
  }

  function Old(w: Case): File {
    Sized(5, [E1], w)
  }

  function DeletionFile(w: Case): File {
    Sized(7, [E3(w), E4(w), E2], w)
  }

  function Last(w: Case): File {
    Sized(12, [E3(w), E5], w)
  }

  /** The version after the two flushes. */
  function Two(w: Case): Version {
    Levels([DeletionFile(w)], [Old(w)])
  }

  function Outputs(w: Case): seq<seq<Entry>> {
    [[E3(w), E4(w), E2], [E1]]
  }

  lemma OneFileAdded(v: Version, v': Version, level: nat, f: File)
    requires level < NUM_LEVELS && v[level] == [] && v'[level] == [f]
    requires forall l: nat :: l < NUM_LEVELS && l != level ==> v'[l] == v[l] && SortedFiles(v[l])
    ensures WithFile(v, v', level, f)
  {
  }

  lemma TouchingOne(f: File, lo: UserKey, hi: UserKey)
    requires !Outside(f, Some(lo), Some(hi))
    ensures Touching([f], Some(lo), Some(hi)) == [f] && TotalSize([f]) == f.size && !MissesAll([f], lo, hi)
  {
    assert [f][..0] == [];
    assert f in [f];
  }

  lemma NothingTouches(lo: UserKey, hi: UserKey)
    ensures Touching([], Some(lo), Some(hi)) == [] && TotalSize([]) == 0 && MissesAll([], lo, hi)
  {
  }

  lemma FirstTable(w: Case, limit: nat)
    ensures MemOk(MemTable([E1], 0), [] + [Put(2, "old")], 1) && DeepestOpen(EmptyVersion, 2, 2, 2, 10 * limit)
    ensures WithFile(EmptyVersion, Levels([], [Old(w)]), 2, Old(w))
  {
    OneFileAdded(EmptyVersion, Levels([], [Old(w)]), 2, Old(w));
    NothingTouches(2, 2);
  }

  lemma SecondMem(w: Case)
    ensures MemOk(MemTable([E3(w), E4(w), E2], 1), Writes(w)[..1] + [Delete(2), Put(0, w.x), Put(1, w.y)], 4)
  {
    var h := Writes(w)[..1] + [Delete(2), Put(0, w.x), Put(1, w.y)];
    var es := [E3(w), E4(w), E2];
    assert EntryOf(h, 2) == E2 == es[2] && EntryOf(h, 3) == E3(w) == es[0] && EntryOf(h, 4) == E4(w) == es[1];
  }

  lemma SecondTable(w: Case, limit: nat)
    requires FillsUp(w, limit)
    ensures DeepestOpen(Levels([], [Old(w)]), 0, 2, 1, 10 * limit)
    ensures WithFile(Levels([], [Old(w)]), Two(w), 1, DeletionFile(w))
  {
    hide Touching, MissesAll, TotalSize;
    OneFileAdded(Levels([], [Old(w)]), Two(w), 1, DeletionFile(w));
    NothingTouches(0, 2);
    TouchingOne(Old(w), 0, 2);
  }

  lemma ThirdMem(w: Case)
    ensures MemOk(MemTable([E5], 4), Writes(w)[..4] + [Put(1, "b")], 5)
  {
    var h := Writes(w)[..4] + [Put(1, "b")];
    assert EntryOf(h, 5) == E5 == [E5][0];
  }

  lemma ThirdTable(w: Case, limit: nat)
    requires FillsUp(w, limit)
    ensures DeepestOpen(Levels([], [Left(w), Right(w)]), 1, 1, 1, 10 * limit)
    ensures WithFile(Levels([], [Left(w), Right(w)]), Split(w), 1, Upper(w))
  {
    hide Touching, MissesAll, TotalSize;
    var v := Levels([], [Left(w), Right(w)]);
    assert Before(Left(w), Right(w));
    OneFileAdded(v, Split(w), 1, Upper(w));
    NothingTouches(1, 1);
    TouchingPair(Left(w), Right(w));
    TouchingOne(Left(w), 1, 1);
    MeetsOne(v[2], Left(w), 1);
  }

  lemma MeetsOne(fs: seq<File>, f: File, u: UserKey)
    requires f in fs && f.smallest.user <= u <= f.largest.user
    ensures !MissesAll(fs, u, u)
  {
  }

  lemma MovedTo(v: Version, v': Version, in0: seq<File>, in1: seq<File>, outs: seq<File>)
    requires v[1] == in0 && v'[1] == [] && SortedFiles(v'[2])
    requires forall g :: g in v'[2] <==> (g in v[2] && g !in in1) || g in outs
    requires forall l: nat :: l < NUM_LEVELS && l != 1 && l != 2 ==> v'[l] == v[l] == []
    ensures WithMoved(v, v', 1, in0, in1, outs)
  {
  }

  lemma FirstInputs(w: Case)
    ensures InputsOk(Two(w), 1, [DeletionFile(w)], [Old(w)]) && NoGap([DeletionFile(w)] + [Old(w)])
    ensures AsPicked(Two(w), 1, [DeletionFile(w)], [Old(w)])
  {
    hide Touching, NoGap, Sized;
    var d, o := DeletionFile(w), Old(w);
    FirstRanges(w);
    assert Two(w)[1] == [d] && Two(w)[2] == [o] && [d] + [o] == [d, o];
    TouchingOne(o, 0, 2);
    PairHasNoGap(d, o);
  }

  lemma FirstRanges(w: Case)
    ensures DeletionFile(w).smallest.user == 0 && DeletionFile(w).largest.user == 2 && Old(w).smallest.user == 2 == Old(w).largest.user
  {
  }

  lemma PairHasNoGap(d: File, o: File)
    requires d.smallest.user <= o.smallest.user <= d.largest.user <= o.largest.user
    ensures NoGap([d, o])
  {
    assert d in [d, o] && o in [d, o];
  }

  lemma FourInOrder(a: Entry, b: Entry, c: Entry, d: Entry)
    requires Less(a.key, b.key) && Less(b.key, c.key) && Less(c.key, d.key)
    ensures Sorted([a, b, c, d]) && SetOf([a, b, c, d]) == {a, b, c, d}
  {
  }

  lemma FirstEntries(w: Case)
    ensures Sorted([E3(w), E4(w), E2, E1]) && SetOf([E3(w), E4(w), E2, E1]) == EntriesOf([DeletionFile(w)] + [Old(w)])
  {
    hide Sorted, SetOf;
    FourInOrder(E3(w), E4(w), E2, E1);
    var d, o := DeletionFile(w), Old(w);
    JoinedEntries([d], [o]);
    assert E3(w) in d.entries && E4(w) in d.entries && E2 in d.entries && E1 in o.entries;
    assert EntriesOf([d]) == {E3(w), E4(w), E2} && EntriesOf([o]) == {E1};
  }

  ghost function KeptOf(e: Entry, all: set<Entry>, snap: nat, base: UserKey -> bool): seq<Entry> {
    if Dropped(all, e, snap, base) then [] else [e]
  }

  lemma OneKept(es: seq<Entry>, i: nat, all: set<Entry>, snap: nat, base: UserKey -> bool)
    requires i < |es|
    ensures Survivors(es[..i + 1], all, snap, base) == Survivors(es[..i], all, snap, base) + KeptOf(es[i], all, snap, base)
  {
    hide Dropped, Survivors;
    SurvivorsSnoc(es, i, all, snap, base);
  }

  lemma FourKept(es: seq<Entry>, all: set<Entry>, snap: nat, base: UserKey -> bool)
    requires |es| == 4
    ensures Survivors(es, all, snap, base) ==
      KeptOf(es[0], all, snap, base) + KeptOf(es[1], all, snap, base) + KeptOf(es[2], all, snap, base) + KeptOf(es[3], all, snap, base)
  {
    hide KeptOf, Survivors;
    NoneKept(es, all, snap, base);
    OneKept(es, 0, all, snap, base);
    OneKept(es, 1, all, snap, base);
    OneKept(es, 2, all, snap, base);
    OneKept(es, 3, all, snap, base);
    assert es[..4] == es;
  }

  lemma NoneKept(es: seq<Entry>, all: set<Entry>, snap: nat, base: UserKey -> bool)
    ensures Survivors(es[..0], all, snap, base) == []
  {
  }

  lemma OneOrTwoTables(a: seq<Entry>, b: seq<Entry>)
    ensures Flatten([a]) == a && Flatten([a, b]) == a + b
  {
    assert [a][..0] == [] && [a, b][..1] == [a];
  }

  /** While the snapshot is held, nothing may be dropped. */
  lemma FirstKept(w: Case)
    ensures Flatten(Outputs(w)) == Survivors([E3(w), E4(w), E2, E1], SetOf([E3(w), E4(w), E2, E1]), 1, BaseOf(Two(w), 1))
  {
    hide Survivors, Flatten, BaseOf;
    var es, base := [E3(w), E4(w), E2, E1], BaseOf(Two(w), 1);
    var all := SetOf(es);
    assert !Dropped(all, E3(w), 1, base) && !Dropped(all, E4(w), 1, base) && !Dropped(all, E2, 1, base) && !Dropped(all, E1, 1, base);
    FourKept(es, all, 1, base);
    OneOrTwoTables([E3(w), E4(w), E2], [E1]);
  }

  lemma FirstCut(w: Case, limit: nat)
    requires FillsUp(w, limit)
    ensures CutWhenFull(Outputs(w), AtLimit(w, limit))
  {
    var a := [E3(w), E4(w), E2];
    assert a[..1] == [E3(w)] && a[..2] == [E3(w), E4(w)];
  }

  lemma FirstMoved(w: Case)
    ensures WithMoved(Two(w), Levels([], [Left(w), Right(w)]), 1, [DeletionFile(w)], [Old(w)], OutputFiles(Outputs(w), 8, SizesOf(Outputs(w), w)))
  {
    var outputs, size := Outputs(w), SizesOf(Outputs(w), w);
    OutputSizes(outputs, 8, size);
    assert OutputFiles(outputs, 8, size) == [Left(w), Right(w)];
    FirstMovedTo(w);
  }

  lemma FirstMovedTo(w: Case)
    ensures WithMoved(Two(w), Levels([], [Left(w), Right(w)]), 1, [DeletionFile(w)], [Old(w)], [Left(w), Right(w)])
  {
    MovedTo(Two(w), Levels([], [Left(w), Right(w)]), [DeletionFile(w)], [Old(w)], [Left(w), Right(w)]);
  }

  lemma LastInputs(w: Case)
    ensures AsPicked(Split(w), 1, [Upper(w)], [Left(w)])
  {
    hide InputsOk, NoGap, Touching;
    SplitInputs(w);
    assert Split(w)[1] == [Upper(w)];
  }

  lemma LastEntriesMerged(w: Case)
    ensures Sorted([E3(w), E5, E4(w), E2]) && SetOf([E3(w), E5, E4(w), E2]) == EntriesOf([Upper(w)] + [Left(w)])
  {
    hide EntriesOf, Sorted, SetOf;
    FourInOrder(E3(w), E5, E4(w), E2);
    SplitEntries(w);
  }

  /** With the snapshot released, the older value of key 1 and the deletion are dropped. */
  lemma LastKept(w: Case)
    ensures Flatten([[E3(w), E5]]) == Survivors([E3(w), E5, E4(w), E2], SetOf([E3(w), E5, E4(w), E2]), 5, BaseOf(Split(w), 1))
  {
    hide Survivors, Flatten;
    var es, base := [E3(w), E5, E4(w), E2], BaseOf(Split(w), 1);
    var all := SetOf(es);
    assert E5 in all && BaseLevel(Split(w), 1, 2);
    hide BaseOf, BaseLevel;
    assert Hidden(all, E4(w), 5) && ObsoleteTombstone(E2, 5, base) && !Hidden(all, E5, 5) && !Hidden(all, E3(w), 5);
    FourKept(es, all, 5, base);
    OneOrTwoTables([E3(w), E5], []);
  }

  lemma LastCut(w: Case, limit: nat)
    requires FillsUp(w, limit)
    ensures CutWhenFull([[E3(w), E5]], AtLimit(w, limit))
  {
    assert [E3(w), E5][..1] == [E3(w)];
  }

  lemma LastMoved(w: Case)
    ensures WithMoved(Split(w), Levels([], [Last(w), Right(w)]), 1, [Upper(w)], [Left(w)], OutputFiles([[E3(w), E5]], 12, SizesOf([[E3(w), E5]], w)))
  {
    var outputs: seq<seq<Entry>>, size := [[E3(w), E5]], SizesOf([[E3(w), E5]], w);
    OutputSizes(outputs, 12, size);
    assert OutputFiles(outputs, 12, size) == [Last(w)];
    LastMovedTo(w);
  }

  lemma LastMovedTo(w: Case)
    ensures WithMoved(Split(w), Levels([], [Last(w), Right(w)]), 1, [Upper(w)], [Left(w)], [Last(w)])
  {
    MovedTo(Split(w), Levels([], [Last(w), Right(w)]), [Upper(w)], [Left(w)], [Last(w)]);
  }

  lemma SnapshotTaken(db: Db, h: Log, v: Version, n: nat) returns (db': Db)
    requires Quiet(db, h, v, [], n)
    ensures Next(db, db', TakeSnapshot) && Quiet(db', h, v, [|h|], n)
  {
    hide Invariant;
    LastIsCount(db);
    WrittenMem(db, |h|, h);
    db' := db.(snapshots := db.snapshots + [db.last]);
    assert [] + [db.last] == [|h|];
    StepKeeps(db, db', TakeSnapshot);
  }

  lemma SnapshotReleased(db: Db, h: Log, v: Version, s: nat, n: nat) returns (db': Db)
    requires Quiet(db, h, v, [s], n)
    ensures Next(db, db', ReleaseSnapshot(0)) && Quiet(db', h, v, [], n)
  {
    hide Invariant;
    LastIsCount(db);
    WrittenMem(db, |h|, h);
    db' := db.(snapshots := db.snapshots[..0] + db.snapshots[1..]);
    assert db.snapshots[..0] + db.snapshots[1..] == [];
    StepKeeps(db, db', ReleaseSnapshot(0));
  }

  lemma StartIsQuiet() returns (db: Db)
    ensures Init(db) && Quiet(db, [], EmptyVersion, [], 4)
  {
    db := Db([], 0, map[3 := MemTable([], 0)], 3, None, map[3 := []], EmptyVersion, 3, 4,
             [Snapshot(EmptyVersion, 0, 2, 0), LoggedEdit(seq(NUM_LEVELS, _ => NoChange), 3, 4, 0)],
             [], None, None, [], {});
    assert Init(db);
    hide Invariant, ReadsRight, ReadersRight;
    InitOk(db);
  }

  /** Key 2 is put and flushed; with a snapshot held it is deleted, two keys before it put, and that flushed too. */
  lemma TwoTables(db: Db, w: Case, limit: nat) returns (states: seq<Db>, steps: seq<Step>, db': Db)
    requires Quiet(db, [], EmptyVersion, [], 4) && FillsUp(w, limit)
    ensures Goes(db, states, steps, db', w, limit) && Quiet(db', Writes(w)[..4], Two(w), [1], 8)
  {
    hide Quiet, MemOk, DeepestOpen, WithFile, Goes, Levels, Next, FillsUp;
    FirstTable(w, limit);
    SecondMem(w);
    SecondTable(w, limit);
    var h, ops, a, b, more, moreSteps := Writes(w), [Delete(2), Put(0, w.x), Put(1, w.y)], db, db, [], [];
    states, steps, a := WriteAndFlush(db, [], EmptyVersion, [], 4, [Put(2, "old")], [E1], 2, Levels([], [Old(w)]), w, limit);
    assert [] + [Put(2, "old")] == h[..1];
    b := SnapshotTaken(a, h[..1], Levels([], [Old(w)]), 6);
    GoesOn(db, states, steps, a, TakeSnapshot, b, w, limit);
    states, steps := states + [b], steps + [TakeSnapshot];
    more, moreSteps, db' := WriteAndFlush(b, h[..1], Levels([], [Old(w)]), [1], 6, ops, [E3(w), E4(w), E2], 1, Two(w), w, limit);
    assert h[..1] + ops == h[..4];
    Joined(db, states, steps, b, more, moreSteps, db', w, limit);
    states, steps := states + more[1..], steps + moreSteps;
  }

  /** They are merged into two tables, cut between the deletion and the value under it; then the snapshot goes,
      and key 1 is put again and flushed. */
  lemma ThreeTables(db: Db, w: Case, limit: nat) returns (states: seq<Db>, steps: seq<Step>, db': Db)
    requires Quiet(db, Writes(w)[..4], Two(w), [1], 8) && FillsUp(w, limit)
    ensures Goes(db, states, steps, db', w, limit) && Quiet(db', Writes(w), Split(w), [], 12)
  {
    hide Quiet, MemOk, DeepestOpen, WithFile, WithMoved, Goes, Levels, Next, InputsOk, NoGap, Sorted, Flatten, Survivors, BaseOf, EntriesOf,
         OutputFiles, SizesOf, AsPicked, CutWhenFull, FillsUp;
    FirstInputs(w);
    FirstEntries(w);
    FirstKept(w);
    FirstCut(w, limit);
    FirstMoved(w);
    ThirdMem(w);
    ThirdTable(w, limit);
    var h, split, a, b, more, moreSteps := Writes(w), Levels([], [Left(w), Right(w)]), db, db, [], [];
    states, steps, a := Compacts(db, h[..4], Two(w), [1], 8, 1, [DeletionFile(w)], [Old(w)], [E3(w), E4(w), E2, E1], Outputs(w), split, w, limit);
    b := SnapshotReleased(a, h[..4], split, 1, 10);
    GoesOn(db, states, steps, a, ReleaseSnapshot(0), b, w, limit);
    states, steps := states + [b], steps + [ReleaseSnapshot(0)];
    more, moreSteps, db' := WriteAndFlush(b, h[..4], split, [], 10, [Put(1, "b")], [E5], 1, Split(w), w, limit);
    assert h[..4] + [Put(1, "b")] == h;
    Joined(db, states, steps, b, more, moreSteps, db', w, limit);
    states, steps := states + more[1..], steps + moreSteps;
  }

  /** The last compaction, with inputs as PickCompaction chooses them from the file of level 1. */
  lemma LastCompaction(db: Db, w: Case, limit: nat) returns (states: seq<Db>, steps: seq<Step>, db': Db)
    requires Quiet(db, Writes(w), Split(w), [], 12) && FillsUp(w, limit)
    ensures Goes(db, states, steps, db', w, limit) && Quiet(db', Writes(w), Levels([], [Last(w), Right(w)]), [], 13)
  {
    hide Quiet, WithMoved, Goes, Levels, Next, InputsOk, NoGap, Sorted, Flatten, Survivors, BaseOf, EntriesOf, OutputFiles, SizesOf, AsPicked,
         CutWhenFull, FillsUp;
    SplitInputs(w);
    LastInputs(w);
    LastEntriesMerged(w);
    LastKept(w);
    LastCut(w, limit);
    LastMoved(w);
    states, steps, db' := Compacts(db, Writes(w), Split(w), [], 12, 1, [Upper(w)], [Left(w)], [E3(w), E5, E4(w), E2], [[E3(w), E5]],
                                   Levels([], [Last(w), Right(w)]), w, limit);
  }

  /** What is left of key 2 is its old value. */
  lemma OldIsRead(db: Db, w: Case)
    requires Quiet(db, Writes(w), Levels([], [Last(w), Right(w)]), [], 13)
    ensures db.last == 5 && GetAt(db, 2, 5) == Some("old") && Lookup(Writes(w), 2, 5) == None
  {
    hide Invariant, Get, View, Lookup;
    LastIsCount(db);
    GetIsViewOfAll(db, 2, 5);
    AllThatIsLeft(db, w);
    OldAgain(w);
    KeyIsDeleted(w);
  }

  lemma OldAgain(w: Case)
    ensures View({E3(w), E5, E1}, 2, 5) == Some("old")
  {
    TheEntries(w);
    NewestIsUnique({E3(w), E5, E1}, Writes(w), 2, 5, E1);
  }

  lemma AllThatIsLeft(db: Db, w: Case)
    requires Quiet(db, Writes(w), Levels([], [Last(w), Right(w)]), [], 13)
    ensures All(db) == {E3(w), E5, E1}
  {
    hide Invariant;
    WrittenMem(db, 5, Writes(w));
    LogRecovery.EmptyMem(db.tables[db.mem].entries, Writes(w), 5, 5);
    LastEntries(w);
  }

  lemma LastEntries(w: Case)
    ensures VersionEntries(Levels([], [Last(w), Right(w)])) == {E3(w), E5, E1}
  {
    var v := Levels([], [Last(w), Right(w)]);
    assert v[2] == [Last(w), Right(w)] && Last(w) in v[2] && Right(w) in v[2];
    assert E3(w) in Last(w).entries && E5 in Last(w).entries && E1 in Right(w).entries;
  }

  /** With values that fill an output up to its limit just there, a run from the initial state in which every flush,
      compaction and cut is as the code picks it ends with the deleted key's old value. */
  lemma DeletionIsLost(w: Case, limit: nat) returns (states: seq<Db>, steps: seq<Step>)
    requires FillsUp(w, limit)
    ensures Run(states, steps) && RunAsCode(states, steps, w, limit) && states[|steps|].hist == Writes(w) && states[|steps|].last == 5
    ensures GetAt(states[|steps|], 2, 5) == Some("old") && Lookup(Writes(w), 2, 5) == None
    ensures !SafeRun(states, steps) && !ClosedRun(states, steps)
  {
    hide Quiet, Goes, Next, Levels, Init, SafeRun, ClosedRun, Invariant, ReadsRight, ReadersRight, FillsUp, RunAsCode;
    var db, a, b, c, more, moreSteps;
    db := StartIsQuiet();
    states, steps, a := TwoTables(db, w, limit);
    more, moreSteps, b := ThreeTables(a, w, limit);
    Joined(db, states, steps, a, more, moreSteps, b, w, limit);
    states, steps := states + more[1..], steps + moreSteps;
    more, moreSteps, c := LastCompaction(b, w, limit);
    Joined(db, states, steps, b, more, moreSteps, c, w, limit);
    states, steps := states + more[1..], steps + moreSteps;
    OldIsRead(c, w);
    GoesIsRun(db, states, steps, c, w, limit);
    QuietHistory(c, w);
    if SafeRun(states, steps) { WouldBeRight(states, steps, w); }
    if ClosedRun(states, steps) { ClosedRunIsSafe(states, steps); }
  }

  lemma GoesIsRun(db: Db, states: seq<Db>, steps: seq<Step>, db': Db, w: Case, limit: nat)
    requires Init(db) && Goes(db, states, steps, db', w, limit)
    ensures Run(states, steps) && states[|steps|] == db' && RunAsCode(states, steps, w, limit)
  {
    hide Next, Init, RunAsCode;
  }

  lemma QuietHistory(db: Db, w: Case)
    requires Quiet(db, Writes(w), Levels([], [Last(w), Right(w)]), [], 13)
    ensures db.hist == Writes(w)
  {
    hide Invariant;
  }

  /** In a safe run the read would have been right. */
  lemma WouldBeRight(states: seq<Db>, steps: seq<Step>, w: Case)
    requires Run(states, steps) && SafeRun(states, steps) && states[|steps|].hist == Writes(w) && states[|steps|].last == 5
    ensures GetAt(states[|steps|], 2, 5) == Lookup(Writes(w), 2, 5)
  {
    hide Next, Init, SafeRun, Invariant, ReadsRight, ReadersRight, Lookup, Get;
    var db := states[|steps|];
    RunKeepsInvariant(states, steps, |steps|);
    ReadsSeeHistory(db, 2, 5);
  }

  // ------------------------------------------------------------ values that fill an output up

  /** Bytes written and bytes pending of a table builder that writes a block once its entries come to blockSize bytes, where
      an entry takes overhead bytes and those of its value. */
  function Filled(es: seq<Entry>, overhead: nat, blockSize: nat): (nat, nat) {
    if es == [] then (0, 0)
    else
      var n := |es| - 1;
      var (written, pending) := Filled(es[..n], overhead, blockSize);
      var more := pending + overhead + |es[n].value|;
      if more >= blockSize then (written + more, 0) else (written, more)
  }

  function Letters(n: nat): (r: string)
    ensures |r| == n
  {
    seq(n, _ => 'a')
  }

  /** For every limit from the block size on there are such values, whatever entries cost. */
  lemma ValuesFillUp(overhead: nat, blockSize: nat, limit: nat) returns (w: Case)
    requires 0 < overhead && 2 * overhead < blockSize < limit
    ensures forall es :: w.grown(es) == Filled(es, overhead, blockSize).0
    ensures forall es :: w.size(es) == Filled(es, overhead, blockSize).0 + Filled(es, overhead, blockSize).1
    ensures FillsUp(w, limit)
  {
    w := Case(Letters(limit - 1 - overhead), Letters(blockSize - 1 - overhead),
              es => Filled(es, overhead, blockSize).0 + Filled(es, overhead, blockSize).1, es => Filled(es, overhead, blockSize).0);
    var a, b := [E3(w), E4(w)], [E3(w), E4(w), E2];
    assert a[..1] == [E3(w)] && b[..2] == a && [E3(w)][..0] == [] && [E1][..0] == [];
    assert Filled([E3(w)], overhead, blockSize) == (limit - 1, 0);
    assert Filled(a, overhead, blockSize) == (limit - 1, blockSize - 1);
  }
}
