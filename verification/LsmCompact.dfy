/** Trivial moves and the installation of compaction results. */
module LsmCompact {
  import opened Keys
  import opened History
  import opened Files
  import opened Ranges
  import opened Builder
  import opened Reads
  import opened Pick
  import opened CompactionWork
  import opened Layout
  import opened Lsm
  import opened LsmInvariant
  import opened LsmWrites
  import opened LsmFlush

  // ------------------------------------------------------------ the new version

  /** The outputs carry numbers of their own: below n, and shared at most with a removed input. */
  ghost predicate OutputNumbers(v: Version, c: nat, in0: seq<File>, outs: seq<File>, n: nat) {
    EachNumberOnce(outs) && (forall o :: o in outs ==> o.number < n) &&
    forall o, l: nat, g :: o in outs && l < |v| && g in v[l] && g.number == o.number ==> l == c && g in in0
  }

  lemma OnceIsDistinct(fs: seq<File>)
    requires EachNumberOnce(fs)
    ensures DistinctNumbers(fs)
  {
    forall f, g | f in fs && g in fs && f.number == g.number ensures f == g {
      var i :| 0 <= i < |fs| && fs[i] == f;
      var j :| 0 <= j < |fs| && fs[j] == g;
    }
  }

  lemma RemovedLevel(v: Version, n: nat, l: nat, removed: seq<File>)
    requires l < NUM_LEVELS && AllSorted(v) && NumbersOk(v, n) && AllIn(removed, v[l])
    ensures LevelChange(v[l], EditLevel(v[l], LevelEdit(Numbers(removed), [])), removed, [])
  {
    assert v[l] + [] == v[l];
    EditedLevel(v[l], LevelEdit(Numbers(removed), []));
  }

  lemma ReplacedLevel(v: Version, n: nat, c: nat, in0: seq<File>, in1: seq<File>, outs: seq<File>)
    requires c + 1 < NUM_LEVELS && AllSorted(v) && NumbersOk(v, n)
    requires AllIn(in1, v[c + 1]) && OutputNumbers(v, c, in0, outs, n)
    ensures LevelChange(v[c + 1], EditLevel(v[c + 1], LevelEdit(Numbers(in1), outs)), in1, outs)
  {
    OnceIsDistinct(outs);
    assert FreshFor(v[c + 1], outs);
    EditedLevel(v[c + 1], LevelEdit(Numbers(in1), outs));
  }

  lemma MovedVersion(v: Version, n: nat, e: LoggedEdit, c: nat, in0: seq<File>, in1: seq<File>, outs: seq<File>)
    requires c + 1 < NUM_LEVELS && AllSorted(v) && NumbersOk(v, n)
    requires AllIn(in0, v[c]) && AllIn(in1, v[c + 1]) && OutputNumbers(v, c, in0, outs, n)
    requires e.levels == TwoLevels(c, LevelEdit(Numbers(in0), []), LevelEdit(Numbers(in1), outs))
    ensures WithMoved(v, EditVersion(v, e), c, in0, in1, outs)
  {
    hide EditLevel, LevelChange, OutputNumbers;
    RemovedLevel(v, n, c, in0);
    ReplacedLevel(v, n, c, in0, in1, outs);
    forall l: nat | l < NUM_LEVELS && l != c && l != c + 1 ensures LevelChange(v[l], EditVersion(v, e)[l], [], []) {
      UnchangedLevel(v[l]);
      SameLevel(v[l]);
    }
  }

  lemma SameLevel(fs: seq<File>)
    requires SortedFiles(fs)
    ensures LevelChange(fs, fs, [], [])
  {
  }

  lemma MovedSameNumber(v: Version, v': Version, n: nat, c: nat, in0: seq<File>, in1: seq<File>, outs: seq<File>,
                        a: nat, f: File, b: nat, g: File)
    requires NumbersOk(v, n) && WithMoved(v, v', c, in0, in1, outs) && OutputNumbers(v, c, in0, outs, n)
    requires a < NUM_LEVELS && b < NUM_LEVELS && f in v'[a] && g in v'[b] && f.number == g.number
    ensures a == b && f == g
  {
    hide WithMoved;
    OnceIsDistinct(outs);
    MovedMember(v, v', c, in0, in1, outs, a, f);
    MovedMember(v, v', c, in0, in1, outs, b, g);
  }

  lemma MovedNumbers(v: Version, v': Version, n: nat, c: nat, in0: seq<File>, in1: seq<File>, outs: seq<File>)
    requires NumbersOk(v, n) && WithMoved(v, v', c, in0, in1, outs) && OutputNumbers(v, c, in0, outs, n)
    ensures NumbersOk(v', n) && AllSorted(v') && VersionNumbers(v') <= VersionNumbers(v) + Numbers(outs)
  {
    forall a: nat, b: nat, f, g | a < NUM_LEVELS && b < NUM_LEVELS && f in v'[a] && g in v'[b] && f.number == g.number
      ensures a == b && f == g
    {
      MovedSameNumber(v, v', n, c, in0, in1, outs, a, f, b, g);
    }
    forall l: nat, f | l < NUM_LEVELS && f in v'[l] ensures f.number < n && f.number in VersionNumbers(v) + Numbers(outs) {
      MovedMember(v, v', c, in0, in1, outs, l, f);
    }
    forall l: nat | l < NUM_LEVELS ensures SortedFiles(v'[l]) {
      if l != c && l != c + 1 { assert LevelChange(v[l], v'[l], [], []); }
    }
  }

  lemma MovedMember(v: Version, v': Version, c: nat, in0: seq<File>, in1: seq<File>, outs: seq<File>, l: nat, g: File)
    requires WithMoved(v, v', c, in0, in1, outs) && l < NUM_LEVELS && g in v'[l]
    ensures (g in v[l] && (l == c ==> g !in in0) && (l == c + 1 ==> g !in in1)) || (l == c + 1 && g in outs)
  {
    if l != c && l != c + 1 { assert LevelChange(v[l], v'[l], [], []); }
  }

  lemma MovedTables(v: Version, v': Version, n: nat, lo: nat, h: Log, c: nat, in0: seq<File>, in1: seq<File>, outs: seq<File>)
    requires TablesOk(v, n, lo, h) && InputsOk(v, c, in0, in1)
    requires WithMoved(v, v', c, in0, in1, outs) && OutputNumbers(v, c, in0, outs, n)
    requires FromInputs(outs, in0, in1) && InRow(outs)
    ensures TablesOk(v', n, lo, h) && VersionNumbers(v') <= VersionNumbers(v) + Numbers(outs)
  {
    hide VersionOk, WithMoved, OutputNumbers, InRow, NumbersOk, AllSorted, VersionEntries;
    MoveKeepsLayout(v, v', c, in0, in1, outs);
    MovedNumbers(v, v', n, c, in0, in1, outs);
    MovedEntriesComeFrom(v, v', c, in0, in1, outs);
  }

  lemma MovedEntriesComeFrom(v: Version, v': Version, c: nat, in0: seq<File>, in1: seq<File>, outs: seq<File>)
    requires InputsOk(v, c, in0, in1) && WithMoved(v, v', c, in0, in1, outs)
    requires FromInputs(outs, in0, in1)
    ensures VersionEntries(v') <= VersionEntries(v)
  {
    hide LeftoverNewer, OtherLevelClear, NoDuplicates;
    forall e | e in VersionEntries(v') ensures e in VersionEntries(v) {
      var l: nat, g :| l < |v'| && g in v'[l] && e in g.entries;
      MovedMember(v, v', c, in0, in1, outs, l, g);
      if g in v[l] {
        VersionEntriesUnder(v, l, g, e);
      } else {
        var x :| x in in0 + in1 && e in x.entries;
        VersionEntriesUnder(v, if x in in0 then c else c + 1, x, e);
      }
    }
  }

  lemma MovedDurable(m: Manifest, v: Version, n: nat, e: LoggedEdit, c: nat, in0: seq<File>, in1: seq<File>,
                     outs: seq<File>, lo: nat, last: nat, logNumber: nat)
    requires c + 1 < NUM_LEVELS && DurableOk(m, v, n, logNumber, lo, last) && NumbersOk(v, n)
    requires e.levels == TwoLevels(c, LevelEdit(Numbers(in0), []), LevelEdit(Numbers(in1), outs))
    requires e.nextFile <= n && lo <= e.lastSequence <= last && forall k :: k in VersionNumbers(EditVersion(v, e)) ==> k < e.nextFile
    requires WithMoved(v, EditVersion(v, e), c, in0, in1, outs) && OutputNumbers(v, c, in0, outs, n)
    requires NumbersOk(EditVersion(v, e), n)
    requires forall o, l: nat :: o in outs && l < NUM_LEVELS && o.number in AddedAt(m, l) ==> l <= c
    ensures DurableOk(m + [e], EditVersion(v, e), n, e.logNumber, lo, last)
  {
    hide Replay, AddedAt, EditVersion, AddsEachOnce, WithMoved, VersionNumbers, NumbersOk, OutputNumbers, AddedOk;
    var v' := EditVersion(v, e);
    forall l: nat | l < NUM_LEVELS
      ensures EachNumberOnce(e.levels[l].added) && Numbers(e.levels[l].added) !! AddedAt(m, l)
      ensures AddedAt(m + [e], l) == AddedAt(m, l) + (if l == c + 1 then Numbers(outs) else {})
    {
      MovedLevelPart(m, v, n, e, c, in0, in1, outs, l);
    }
    ReplayAppend(m, e);
    assert LastEdit(m + [e]) == e;
    MovedAdded(m, v, v', n, e, c, in0, in1, outs);
  }

  lemma MovedLevelPart(m: Manifest, v: Version, n: nat, e: LoggedEdit, c: nat, in0: seq<File>, in1: seq<File>, outs: seq<File>, l: nat)
    requires c + 1 < NUM_LEVELS && l < NUM_LEVELS && OutputNumbers(v, c, in0, outs, n)
    requires e.levels == TwoLevels(c, LevelEdit(Numbers(in0), []), LevelEdit(Numbers(in1), outs))
    requires forall o, l: nat :: o in outs && l < NUM_LEVELS && o.number in AddedAt(m, l) ==> l <= c
    ensures EachNumberOnce(e.levels[l].added) && Numbers(e.levels[l].added) !! AddedAt(m, l)
    ensures AddedAt(m + [e], l) == AddedAt(m, l) + (if l == c + 1 then Numbers(outs) else {})
  {
    hide AddedAt, Numbers, EachNumberOnce, TwoLevels, OutputNumbers;
    LevelPartAppend(m, e, l);
    TwoLevelsAt(c, LevelEdit(Numbers(in0), []), LevelEdit(Numbers(in1), outs), l);
    NoNumbers();
    OutputsFresh(m, v, c, in0, outs, n);
  }

  lemma TwoLevelsAt(c: nat, a: LevelEdit, b: LevelEdit, l: nat)
    requires l < NUM_LEVELS
    ensures TwoLevels(c, a, b)[l] == if l == c then a else if l == c + 1 then b else NoChange
  {
  }

  lemma NoNumbers()
    ensures Numbers([]) == {} && EachNumberOnce([]) && NoChange.added == []
  {
  }

  lemma OutputsFresh(m: Manifest, v: Version, c: nat, in0: seq<File>, outs: seq<File>, n: nat)
    requires c + 1 < NUM_LEVELS && OutputNumbers(v, c, in0, outs, n)
    requires forall o, l: nat :: o in outs && l < NUM_LEVELS && o.number in AddedAt(m, l) ==> l <= c
    ensures EachNumberOnce(outs) && Numbers(outs) !! AddedAt(m, c + 1)
  {
    hide AddedAt;
  }

  /** Outputs were added at the output level only, which is where they are. */
  lemma OutputsBelow(v: Version, c: nat, in0: seq<File>, outs: seq<File>, n: nat)
    requires OutputNumbers(v, c, in0, outs, n)
    ensures forall k :: k in Numbers(outs) ==> k < n
  {
  }

  lemma MovedAdded(m: Manifest, v: Version, v': Version, n: nat, e: LoggedEdit, c: nat, in0: seq<File>, in1: seq<File>, outs: seq<File>)
    requires AddedOk(m, v, n) && WithMoved(v, v', c, in0, in1, outs) && OutputNumbers(v, c, in0, outs, n) && NumbersOk(v, n) && NumbersOk(v', n)
    requires forall l: nat :: l < NUM_LEVELS ==> AddedAt(m + [e], l) == AddedAt(m, l) + (if l == c + 1 then Numbers(outs) else {})
    requires forall o, l: nat :: o in outs && l < NUM_LEVELS && o.number in AddedAt(m, l) ==> l <= c
    ensures AddedOk(m + [e], v', n)
  {
    hide AddedAt, WithMoved, NumbersOk;
    OutputsBelow(v, c, in0, outs, n);
    forall l: nat, x: nat, f: File | l < NUM_LEVELS && x < NUM_LEVELS && f in v'[x] && f.number in AddedAt(m + [e], l)
      ensures l <= x
    {
      MovedMember(v, v', c, in0, in1, outs, x, f);
      if f.number !in AddedAt(m, l) {
        var o :| o in outs && o.number == f.number;
      }
    }
  }

  lemma StillThere(v: Version, v': Version, c: nat, in0: seq<File>, in1: seq<File>, outs: seq<File>, l: nat, g: File)
    requires WithMoved(v, v', c, in0, in1, outs) && l < NUM_LEVELS && g in v[l]
    requires (l == c ==> g !in in0) && (l == c + 1 ==> g !in in1)
    ensures g in v'[l]
  {
    if l != c && l != c + 1 { assert LevelChange(v[l], v'[l], [], []); }
  }

  // ------------------------------------------------------------ a single file moved down

  lemma TrivialMoveKeeps(db: Db, db': Db, c: nat, f: File, m: Marks)
    requires Invariant(db) && Next(db, db', TrivialMove(c, f, m))
    ensures Invariant(db') && (ReadsOk(db) ==> ReadsOk(db'))
  {
    hide TablesOk, DurableOk, JobOk, SnapshotsOk, LogHolds, LogNumbersOk, LogsOk, MemTablesOk, MemOk, Get, Lookup, View,
      EntryOf, VersionEntries, ReaderRight, Agrees, FlushLevelOk, OutputsOf, Recovers, InputsOk, NoGap, Replay,
      AddsEachOnce, EditVersion, AddedAt, VersionNumbers, VersionOk, WithMoved, NumbersOk, AllSorted, OutputNumbers;
    var e := MoveEdit(db, c, f, m);
    TrivialMoveVersion(db, e, c, f, m);
    assert All(db') == All(db);
  }

  lemma TrivialMoveVersion(db: Db, e: LoggedEdit, c: nat, f: File, m: Marks)
    requires Invariant(db) && InputsOk(db.version, c, [f], []) && MarksOk(db, m) && e == MoveEdit(db, c, f, m)
    ensures var v' := EditVersion(db.version, e);
      TablesOk(v', db.nextFile, FlushedTo(db), db.hist) &&
      DurableOk(db.manifest + [e], v', db.nextFile, db.logNumber, FlushedTo(db), db.last) &&
      VersionEntries(v') == VersionEntries(db.version) && VersionNumbers(v') <= VersionNumbers(db.version)
  {
    hide JobOk, SnapshotsOk, LogsOk, LogNumbersOk, MemTablesOk, MemOk, LogHolds, VersionOk, WithMoved, Replay, AddsEachOnce,
      LeftoverNewer, OtherLevelClear, VersionEntries, VersionNumbers, EditVersion, AddedAt;
    var v := db.version;
    var v' := EditVersion(v, e);
    assert f in [f] && f in v[c];
    assert Numbers([f]) == {f.number} && Numbers([]) == {};
    MovedVersion(v, db.nextFile, e, c, [f], [], [f]);
    SingleFileInRow(v, c, f);
    MovedTables(v, v', db.nextFile, FlushedTo(db), db.hist, c, [f], [], [f]);
    FileNumberKnown(v, c, f);
    MovedDurable(db.manifest, v, db.nextFile, e, c, [f], [], [f], FlushedTo(db), db.last, db.logNumber);
    MovedEntriesComeFrom(v, v', c, [f], [], [f]);
    MovedEntriesStay(v, v', c, f);
  }

  lemma FileNumberKnown(v: Version, c: nat, f: File)
    requires c < |v| && f in v[c]
    ensures f.number in VersionNumbers(v)
  {
  }

  lemma SingleFileInRow(v: Version, c: nat, f: File)
    requires VersionOk(v) && c < NUM_LEVELS && f in v[c]
    ensures InRow([f]) && FromInputs([f], [f], [])
  {
    assert f in [f] + [];
  }

  lemma MovedEntriesStay(v: Version, v': Version, c: nat, f: File)
    requires WithMoved(v, v', c, [f], [], [f])
    ensures VersionEntries(v) <= VersionEntries(v')
  {
    forall e | e in VersionEntries(v) ensures e in VersionEntries(v') {
      var l: nat, g :| l < |v| && g in v[l] && e in g.entries;
      if l == c && g == f {
        assert f in [f] && f in v'[c + 1];
        VersionEntriesUnder(v', c + 1, f, e);
      } else {
        StillThere(v, v', c, [f], [], [f], l, g);
        VersionEntriesUnder(v', l, g, e);
      }
    }
  }

  // ------------------------------------------------------------ outputs of the merge loop

  /** Chunks of a sorted sequence are sorted and follow each other. */
  lemma {:induction false} ChunksInRow(outs: seq<File>)
    requires Sorted(Flatten(FileEntries(outs)))
    requires forall o :: o in outs ==> o.entries != [] && o == TableOf(o.number, o.size, o.entries)
    ensures forall o :: o in outs ==> Sorted(o.entries)
    ensures Disjoint(outs)
    ensures forall e :: e in Flatten(FileEntries(outs)) <==> exists o :: o in outs && e in o.entries
  {
    if outs != [] {
      var init, o := outs[..|outs| - 1], outs[|outs| - 1];
      var fe := FileEntries(outs);
      assert fe[..|fe| - 1] == FileEntries(init);
      var a, all := Flatten(FileEntries(init)), Flatten(fe);
      assert all == a + o.entries;
      PrefixSorted(a, o.entries);
      assert outs == init + [o];
      ChunksInRow(init);
      forall i, j | 0 <= i < j < |outs| ensures Before(outs[i], outs[j]) {
        if j == |outs| - 1 {
          assert outs[i] == init[i] && init[i] in init;
          var last := init[i].entries[|init[i].entries| - 1];
          assert last in init[i].entries;
          assert last in a && o.entries[0] in o.entries;
        }
      }
    }
  }

  lemma PrefixSorted(a: seq<Entry>, b: seq<Entry>)
    requires Sorted(a + b)
    ensures Sorted(a) && Sorted(b)
    ensures forall x, y :: x in a && y in b ==> Less(x.key, y.key)
  {
    var r := a + b;
    assert forall i :: 0 <= i < |a| ==> a[i] == r[i];
    assert forall i :: 0 <= i < |b| ==> b[i] == r[|a| + i];
  }

  /** The outputs of a compaction are valid tables made of its inputs' entries. */
  lemma OutputsAreTables(j: Job, v: Version, input: seq<Entry>, outs: seq<File>)
    requires OutputsOf(j, input, outs)
    requires VersionOk(v) && InputsOk(v, j.level, j.in0, j.in1)
    ensures InRow(outs) && FromInputs(outs, j.in0, j.in1)
    ensures HoldKept(j, outs)
  {
    hide LeftoverNewer, OtherLevelClear, NoDuplicates, LevelOrder, NumberOrder, Flatten, Survivors, Dropped, JobBase;
    SurvivorsSpec(input, SetOf(input), j.snap, JobBase(j));
    ChunksInRow(outs);
    forall e | e in InputEntries(j) ensures e.key.sn <= MAX_SEQUENCE {
      var g :| g in j.in0 + j.in1 && e in g.entries;
    }
    forall o, e | o in outs && e in o.entries ensures exists g :: g in j.in0 + j.in1 && e in g.entries {
      assert e in Flatten(FileEntries(outs));
      assert e in InputEntries(j);
    }
  }

  // ------------------------------------------------------------ installation

  /** An input and a file that is not an input are told apart by age or by position. */
  lemma InputsStandApart(v: Version, c: nat, in0: seq<File>, in1: seq<File>, l: nat, g: File, x: File)
    requires VersionOk(v) && InputsOk(v, c, in0, in1) && l < NUM_LEVELS && g in v[l] && x in in0 + in1
    requires !(l == c && g in in0) && !(l == c + 1 && g in in1)
    ensures Newer(g, x) || Newer(x, g) || Before(g, x) || Before(x, g)
  {
    hide NumberOrder, NoDuplicates, Newer, Before;
    if x in in0 {
      assert x in v[c];
    } else {
      assert x in v[c + 1];
      if l == c + 1 { assert OtherLevelClear(g, in0, in1); }
    }
  }

  lemma ApartShareNothing(g: File, x: File, e: Entry)
    requires Newer(g, x) || Newer(x, g) || Before(g, x) || Before(x, g)
    requires ValidFile(g) && ValidFile(x) && e in g.entries
    ensures e !in x.entries
  {
    if e in x.entries && (Before(g, x) || Before(x, g)) {
      EntryInRange(g, e);
      EntryInRange(x, e);
    }
  }

  /** An entry has one home: what an input holds, no other file holds. */
  lemma InputsOwnTheirEntries(v: Version, c: nat, in0: seq<File>, in1: seq<File>, l: nat, g: File, e: Entry)
    requires VersionOk(v) && InputsOk(v, c, in0, in1) && l < NUM_LEVELS && g in v[l] && e in g.entries
    requires !(l == c && g in in0) && !(l == c + 1 && g in in1)
    ensures e !in EntriesOf(in0 + in1)
  {
    forall x | x in in0 + in1 ensures e !in x.entries {
      InputsStandApart(v, c, in0, in1, l, g, x);
      InputIsValid(v, c, in0, in1, x);
      ApartShareNothing(g, x, e);
    }
  }

  lemma InputIsValid(v: Version, c: nat, in0: seq<File>, in1: seq<File>, x: File)
    requires VersionOk(v) && InputsOk(v, c, in0, in1) && x in in0 + in1
    ensures ValidFile(x)
  {
    hide LeftoverNewer, OtherLevelClear, NoDuplicates, ValidFile, LevelOrder, NumberOrder;
    assert x in v[c] || x in v[c + 1];
  }

  lemma InputEntriesAreHeld(v: Version, c: nat, in0: seq<File>, in1: seq<File>)
    requires InputsOk(v, c, in0, in1)
    ensures EntriesOf(in0 + in1) <= VersionEntries(v)
  {
    hide LeftoverNewer, OtherLevelClear, NoDuplicates;
    forall e | e in EntriesOf(in0 + in1) ensures e in VersionEntries(v) {
      var x :| x in in0 + in1 && e in x.entries;
      VersionEntriesUnder(v, if x in in0 then c else c + 1, x, e);
    }
  }

  /** The outputs hold the inputs that are not dropped. */
  ghost predicate HoldKept(j: Job, outs: seq<File>) {
    forall e :: (exists o :: o in outs && e in o.entries) <==> e in InputEntries(j) && !Dropped(InputEntries(j), e, j.snap, JobBase(j))
  }

  lemma HomeOf(v: Version, e: Entry) returns (l: nat, g: File)
    requires e in VersionEntries(v)
    ensures l < |v| && g in v[l] && e in g.entries
  {
    l, g :| l < |v| && g in v[l] && e in g.entries;
  }

  lemma InstalledIsKept(j: Job, v: Version, v': Version, outs: seq<File>, e: Entry)
    requires VersionOk(v) && InputsOk(v, j.level, j.in0, j.in1) && WithMoved(v, v', j.level, j.in0, j.in1, outs) && HoldKept(j, outs)
    requires e in VersionEntries(v')
    ensures e in Compacted(VersionEntries(v), InputEntries(j), j.snap, JobBase(j))
  {
    hide VersionOk, InputsOk, VersionEntries, Dropped, JobBase, WithMoved;
    InputEntriesAreHeld(v, j.level, j.in0, j.in1);
    var l, g := HomeOf(v', e);
    MovedMember(v, v', j.level, j.in0, j.in1, outs, l, g);
    if !(l == j.level + 1 && g in outs) {
      VersionEntriesUnder(v, l, g, e);
      InputsOwnTheirEntries(v, j.level, j.in0, j.in1, l, g, e);
    }
  }

  lemma KeptIsInstalled(j: Job, v: Version, v': Version, outs: seq<File>, e: Entry)
    requires WithMoved(v, v', j.level, j.in0, j.in1, outs) && HoldKept(j, outs)
    requires e in Compacted(VersionEntries(v), InputEntries(j), j.snap, JobBase(j))
    ensures e in VersionEntries(v')
  {
    hide VersionEntries, Dropped, JobBase;
    if e in InputEntries(j) {
      var o :| o in outs && e in o.entries;
      OutputStands(v, v', j, outs, o);
      VersionEntriesUnder(v', j.level + 1, o, e);
    } else {
      hide WithMoved;
      var l, g := HomeOf(v, e);
      assert g in j.in0 + j.in1 ==> e in InputEntries(j);
      StillThere(v, v', j.level, j.in0, j.in1, outs, l, g);
      VersionEntriesUnder(v', l, g, e);
    }
  }

  lemma OutputStands(v: Version, v': Version, j: Job, outs: seq<File>, o: File)
    requires WithMoved(v, v', j.level, j.in0, j.in1, outs) && o in outs
    ensures o in v'[j.level + 1]
  {
  }

  /** The new version holds the old entries minus the dropped inputs. */
  lemma InstalledEntries(j: Job, v: Version, v': Version, input: seq<Entry>, outs: seq<File>)
    requires OutputsOf(j, input, outs)
    requires VersionOk(v) && InputsOk(v, j.level, j.in0, j.in1)
    requires WithMoved(v, v', j.level, j.in0, j.in1, outs)
    ensures VersionEntries(v') == Compacted(VersionEntries(v), InputEntries(j), j.snap, JobBase(j))
  {
    hide VersionOk, InputsOk, OutputsOf, VersionEntries, Dropped, JobBase, WithMoved, Compacted, InputEntries;
    OutputsAreTables(j, v, input, outs);
    forall e ensures e in VersionEntries(v') <==> e in Compacted(VersionEntries(v), InputEntries(j), j.snap, JobBase(j)) {
      if e in VersionEntries(v') { InstalledIsKept(j, v, v', outs, e); }
      if e in Compacted(VersionEntries(v), InputEntries(j), j.snap, JobBase(j)) { KeptIsInstalled(j, v, v', outs, e); }
    }
  }

  /** Installing a compaction removes from the database exactly what the drop rules removed. */
  lemma InstallCompacts(db: Db, db': Db, j: Job, input: seq<Entry>, outs: seq<File>, m: Marks)
    requires Invariant(db) && db.job == Some(j) && Next(db, db', InstallCompaction(input, outs, m))
    requires WithMoved(db.version, db'.version, j.level, j.in0, j.in1, outs)
    ensures InputEntries(j) <= All(db) && All(db') == Compacted(All(db), InputEntries(j), j.snap, JobBase(j))
  {
    hide DurableOk, LogsOk, LogNumbersOk, LogHolds, SnapshotsOk, VersionNumbers, OutputsOf, Recovers, EditVersion,
      NoGap, BaseLevel, AddedAt, NumbersOk, AllSorted, VersionOk, InputsOk, WithMoved, VersionEntries, Dropped, JobBase;
    LayersAreOrdered(db);
    InstalledEntries(j, db.version, db'.version, input, outs);
    InputEntriesAreHeld(db.version, j.level, j.in0, j.in1);
  }

  lemma PendingAreOutputNumbers(j: Job, v: Version, m: Manifest, minLive: nat, n: nat, outs: seq<File>)
    requires JobOk(j, v, m, minLive, n) && EachNumberOnce(outs) && Numbers(outs) <= j.pending
    ensures OutputNumbers(v, j.level, j.in0, outs, n)
    ensures forall o, l: nat :: o in outs && l < NUM_LEVELS ==> o.number !in AddedAt(m, l)
  {
    hide InputsOk, NoGap, BaseLevel, AddedAt, InputEntries;
    assert forall o :: o in outs ==> o.number in Numbers(outs);
  }

  lemma InstalledVersion(db: Db, e: LoggedEdit, j: Job, input: seq<Entry>, outs: seq<File>, m: Marks)
    requires Invariant(db) && db.job == Some(j) && OutputsOf(j, input, outs) && MarksOk(db, m)
    requires e == InstallEdit(db, j, outs, m)
    ensures var v' := EditVersion(db.version, e);
      WithMoved(db.version, v', j.level, j.in0, j.in1, outs) &&
      TablesOk(v', db.nextFile, FlushedTo(db), db.hist) &&
      DurableOk(db.manifest + [e], v', db.nextFile, db.logNumber, FlushedTo(db), db.last) &&
      VersionNumbers(v') <= VersionNumbers(db.version) + j.pending
  {
    hide SnapshotsOk, LogsOk, LogNumbersOk, MemTablesOk, MemOk, LogHolds, VersionOk, WithMoved, Replay, AddsEachOnce,
      LeftoverNewer, OtherLevelClear, VersionEntries, EditVersion, AddedAt, NoGap, BaseLevel, InRow, FromInputs,
      Flatten, Survivors, JobBase, OutputNumbers, VersionNumbers, NumbersOk, AllSorted, DurableOk, WrittenUpTo, Dropped;
    var v := db.version;
    var v' := EditVersion(v, e);
    PendingAreOutputNumbers(j, v, db.manifest, MinLive(db), db.nextFile, outs);
    MovedVersion(v, db.nextFile, e, j.level, j.in0, j.in1, outs);
    OutputsAreTables(j, v, input, outs);
    MovedTables(v, v', db.nextFile, FlushedTo(db), db.hist, j.level, j.in0, j.in1, outs);
    MovedDurable(db.manifest, v, db.nextFile, e, j.level, j.in0, j.in1, outs, FlushedTo(db), db.last, db.logNumber);
  }

  /** Installing a compaction keeps every structural fact, whatever was flushed while it ran. */
  lemma InstallKeepsInvariant(db: Db, db': Db, j: Job, input: seq<Entry>, outs: seq<File>, m: Marks)
    requires Invariant(db) && db.job == Some(j) && Next(db, db', InstallCompaction(input, outs, m))
    ensures Invariant(db')
    ensures InputEntries(j) <= All(db) && All(db') == Compacted(All(db), InputEntries(j), j.snap, JobBase(j))
  {
    hide TablesOk, DurableOk, JobOk, SnapshotsOk, LogHolds, LogNumbersOk, LogsOk, MemTablesOk, MemOk,
      EntryOf, VersionEntries, FlushLevelOk, OutputsOf, Recovers, InputsOk, NoGap, Replay,
      AddsEachOnce, EditVersion, AddedAt, VersionNumbers, VersionOk, WithMoved, NumbersOk, AllSorted, OutputNumbers, Contents,
      Compacted, InputEntries;
    InstalledVersion(db, InstallEdit(db, j, outs, m), j, input, outs, m);
    InstallCompacts(db, db', j, input, outs, m);
  }

  /** Reads in progress have their own version; installing another does not touch them. */
  lemma InstallKeepsReaders(db: Db, db': Db, input: seq<Entry>, outs: seq<File>, m: Marks)
    requires ReadersRight(db) && Next(db, db', InstallCompaction(input, outs, m))
    ensures ReadersRight(db')
  {
    hide ReaderRight, EditVersion, OutputsOf, Recovers;
  }

  /** The tombstones of the running compaction are safe to drop, for every read still allowed. */
  ghost predicate SafeToInstall(db: Db) {
    db.job.Some? ==>
      TombstonesSafe(All(db), InputEntries(db.job.value), db.job.value.snap, JobBase(db.job.value), MinLive(db))
  }

  /** Installing a compaction leaves every read from lo on unchanged exactly when its dropped tombstones cover
      no live value left behind that a read at lo would see; lo may be smallest_snapshot, or any later number. */
  lemma InstallKeepsReadsIff(db: Db, db': Db, j: Job, input: seq<Entry>, outs: seq<File>, m: Marks, lo: nat)
    requires Invariant(db) && db.job == Some(j) && Next(db, db', InstallCompaction(input, outs, m)) && j.snap <= lo
    ensures SameReadsFrom(All(db), All(db'), lo) <==> TombstonesSafe(All(db), InputEntries(j), j.snap, JobBase(j), lo)
    ensures lo <= db.last ==>
      (SameReads(All(db), All(db'), lo, db.last) <==> TombstonesSafe(All(db), InputEntries(j), j.snap, JobBase(j), lo))
  {
    hide Recovers, OutputsOf, EditVersion, TombstonesSafe, SameReadsFrom, SameReads, Compacted, Contents, InputEntries, JobBase,
      TablesOk, DurableOk, JobOk, LogsOk, LogNumbersOk, MemTablesOk, VersionNumbers, SnapshotsOk, AllWrittenBy;
    LayersAreOrdered(db);
    InstallKeepsInvariant(db, db', j, input, outs, m);
    CompactionKeepsReadsIff(All(db), InputEntries(j), Full(db), j.snap, JobBase(j), lo, Max(lo, db.last));
  }

  /** After an install every allowed read is right exactly when that install was safe. */
  lemma InstallReadsRightIff(db: Db, db': Db, input: seq<Entry>, outs: seq<File>, m: Marks)
    requires Invariant(db) && ReadsRight(db) && Next(db, db', InstallCompaction(input, outs, m))
    ensures ReadsRight(db') <==> SafeToInstall(db)
  {
    hide Recovers, OutputsOf, EditVersion, TombstonesSafe, Contents, InputEntries, JobBase, View, Lookup,
      TablesOk, DurableOk, LogsOk, LogNumbersOk, MemTablesOk, VersionNumbers, InputsOk, NoGap, BaseLevel, AddedAt;
    MinLiveIsLeast(db);
    InstallKeepsReadsIff(db, db', db.job.value, input, outs, m, MinLive(db));
  }

  lemma InstallKeeps(db: Db, db': Db, input: seq<Entry>, outs: seq<File>, m: Marks)
    requires Invariant(db) && Next(db, db', InstallCompaction(input, outs, m))
    ensures Invariant(db') && (ReadsOk(db) && SafeToInstall(db) ==> ReadsOk(db'))
  {
    hide Recovers, OutputsOf, EditVersion, SafeToInstall, Contents, View, Lookup, ReadsRight, ReadersRight, Invariant;
    InstallKeepsInvariant(db, db', db.job.value, input, outs, m);
    if ReadsOk(db) {
      InstallKeepsReaders(db, db', input, outs, m);
      InstallReadsRightIff(db, db', input, outs, m);
    }
  }

  // ------------------------------------------------------------ when tombstones are safe

  /** No file of level c+1 outside the inputs continues the user key that ends an input of that level. */
  ghost predicate OutputLevelClosed(v: Version, c: nat, in1: seq<File>)
    requires c + 1 < |v|
  {
    forall f, g :: f in v[c + 1] && f !in in1 && g in in1 ==> !(Before(g, f) && g.largest.user == f.smallest.user)
  }

  /** With the output level closed, everything older than an input entry, for a key without deeper
      data, is itself an input. */
  lemma OlderDataIsInput(j: Job, v: Version, l: nat, g: File, e: Entry, d: Entry, h: Log)
    requires VersionOk(v) && InputsOk(v, j.level, j.in0, j.in1) && OutputLevelClosed(v, j.level, j.in1)
    requires l < NUM_LEVELS && g in v[l] && e in g.entries && d in InputEntries(j) && e.key.user == d.key.user
    requires e.key.sn <= d.key.sn && BaseLevel(v, j.level, d.key.user)
    requires WrittenBy(e, h) && WrittenBy(d, h)
    ensures e in InputEntries(j)
  {
    hide NumberOrder, NoDuplicates, WrittenBy, Less, Disjoint, BaseLevel, ValidFile, Before, OutputLevelClosed;
    NotDeeper(j, v, l, g, e, d);
    var x :| x in j.in0 + j.in1 && d in x.entries;
    EntryInRange(g, e);
    InputIsValid(v, j.level, j.in0, j.in1, x);
    EntryInRange(x, d);
    assert x in j.in0 ==> x in v[j.level];
    assert x in j.in1 ==> x in v[j.level + 1];
    assert !Newer(g, x);
    if l == j.level {
      assert g in j.in0 + j.in1;
    } else if g in j.in1 {
      assert g in j.in0 + j.in1;
    } else {
      assert OtherLevelClear(g, j.in0, j.in1);
      assert x in j.in1;
      SharedUser(v, j.level, j.in1, x, g, d, e);
      FirstIsNewer(e, d, h);
    }
  }

  /** Left behind beside a closed output level, a file that shares a user key with an input comes before it. */
  lemma SharedUser(v: Version, c: nat, in1: seq<File>, x: File, g: File, d: Entry, e: Entry)
    requires c + 1 < |v| && OutputLevelClosed(v, c, in1) && g in v[c + 1] && g !in in1 && x in in1
    requires ValidFile(x) && ValidFile(g) && d in x.entries && e in g.entries && d.key.user == e.key.user
    requires Before(g, x) || Before(x, g)
    ensures Less(e.key, d.key)
  {
    hide Sorted;
    EntryInRange(g, e);
    EntryInRange(x, d);
  }

  lemma NotDeeper(j: Job, v: Version, l: nat, g: File, e: Entry, d: Entry)
    requires VersionOk(v) && l < NUM_LEVELS && g in v[l] && e in g.entries && e.key.user == d.key.user
    requires BaseLevel(v, j.level, d.key.user)
    ensures l < j.level + 2
  {
    EntryInRange(g, e);
  }

  lemma FirstIsNewer(e: Entry, d: Entry, h: Log)
    requires WrittenBy(e, h) && WrittenBy(d, h) && Less(e.key, d.key) && e.key.user == d.key.user
    ensures e.key.sn > d.key.sn
  {
  }
}
