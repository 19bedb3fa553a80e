/** LogAndApply releases the mutex while it writes the manifest, and writers and readers run on. What it then installs is what
    it was called for, with the record it has written, whose counters are those of the call. */
module LsmApply {
  import opened Keys
  import opened History
  import opened Builder
  import opened Pick
  import opened Lsm
  import opened LsmInvariant
  import opened LsmWrites
  import opened LsmCompact
  import opened LsmRuns
  import opened LsmProgress

  /** Steps of other threads: none of them is the background thread's. */
  predicate RunsOn(step: Step) {
    step.BeginGroup? || step.LogGroup? || step.InsertNext? || step.CommitGroup? || step.SwitchMemTable? ||
    step.TakeSnapshot? || step.ReleaseSnapshot? || step.BeginRead? || step.EndRead?
  }

  /** Steps that call LogAndApply. */
  predicate Applies(step: Step) {
    step.Flush? || step.TrivialMove? || step.InstallCompaction?
  }

  /** What the background thread has at hand stays. */
  ghost predicate SameBase(db: Db, db': Db) {
    db'.version == db.version && db'.manifest == db.manifest && db'.logNumber == db.logNumber && db'.job == db.job && db'.files == db.files &&
    db.last <= db'.last == |db'.hist| && db.nextFile <= db'.nextFile && db'.mem in db'.logs && MemTablesAt(db) && MemTablesAt(db') &&
    FlushedTo(db') == FlushedTo(db) && (db.imm.Some? ==> SameImm(db, db'))
  }

  ghost predicate MemTablesAt(db: Db) {
    db.mem in db.tables && (db.imm.Some? ==> db.imm.value in db.tables)
  }

  /** An immutable memtable keeps the next one from being switched. */
  ghost predicate SameImm(db: Db, db': Db)
    requires MemTablesAt(db) && MemTablesAt(db')
  {
    db'.imm == db.imm && db'.mem == db.mem && db'.nextFile == db.nextFile && Entries(db'.tables, db.imm) == Entries(db.tables, db.imm) &&
    db'.tables[db.mem].after == db.tables[db.mem].after
  }

  lemma StepKeepsBase(db: Db, db': Db, step: Step)
    requires Invariant(db) && Next(db, db', step) && RunsOn(step)
    ensures SameBase(db, db')
  {
    hide TablesOk, DurableOk, LogsOk, SnapshotsOk, JobOk, MemOk, LiveFiles, Insert, EntryOf;
  }

  lemma {:induction false} StepsKeepBase(db: Db, states: seq<Db>, steps: seq<Step>, db': Db)
    requires Invariant(db) && Leads(db, states, steps, db') && forall i :: 0 <= i < |steps| ==> RunsOn(steps[i])
    ensures SameBase(db, db') && Invariant(db')
    decreases |steps|
  {
    hide Invariant, Next, RunsOn, Entries;
    LeadsEnds(db, states, steps, db');
    if steps == [] {
      ItsOwnBase(db);
    } else {
      var n := |steps| - 1;
      assert Next(states[n], states[n + 1], steps[n]) && RunsOn(steps[n]);
      assert Leads(db, states[..n + 1], steps[..n], states[n]);
      StepsKeepBase(db, states[..n + 1], steps[..n], states[n]);
      StepKeepsBase(states[n], db', steps[n]);
      LeadsKeeps(db, states, steps, db');
    }
  }

  lemma ItsOwnBase(db: Db)
    requires Invariant(db)
    ensures SameBase(db, db)
  {
    hide TablesOk, DurableOk, LogsOk, SnapshotsOk, JobOk, MemOk, LiveFiles, LogNumbersOk;
  }

  /** The state that the same step leads to from the later state. */
  ghost function Installed(db: Db, step: Step): Db
    requires Applies(step) && (step.Flush? ==> db.imm.Some?) && (step.InstallCompaction? ==> db.job.Some?)
  {
    match step
    case Flush(level, size, last) => FlushOp(db, level, size, last)
    case TrivialMove(c, f, m) => LogAndApply(db, MoveEdit(db, c, f, m))
    case InstallCompaction(input, outs, m) => LogAndApply(db, InstallEdit(db, db.job.value, outs, m)).(job := None)
  }

  /** Whatever writers and readers do between the call and the install, the step can still be taken, logs the same record,
      and leads to the same version. */
  lemma ApplyMayWait(db: Db, states: seq<Db>, steps: seq<Step>, later: Db, step: Step, db': Db) returns (later': Db)
    requires Invariant(db) && Applies(step) && Next(db, db', step)
    requires Leads(db, states, steps, later) && forall i :: 0 <= i < |steps| ==> RunsOn(steps[i])
    ensures Next(later, later', step) && Invariant(later')
    ensures later'.version == db'.version && later'.manifest == db'.manifest && later'.logNumber == db'.logNumber
    ensures later'.hist == later.hist && later'.group == later.group && later'.snapshots == later.snapshots
  {
    hide Invariant, Leads, EditVersion, FlushLevelOk, InputsOk, OutputsOf, VersionNumbers, SafeToInstall, ReadsOk;
    StepsKeepBase(db, states, steps, later);
    later' := Installed(later, step);
    StepKeeps(later, later', step);
  }
}
