/** Why a compaction needs its output level closed: inputs that PickCompaction can choose, whose
    compaction brings a deleted value back. */
module Closure {
  import opened Keys
  import opened History
  import opened Files
  import opened Ranges
  import opened Builder
  import opened Reads
  import opened Pick
  import opened CompactionWork
  import opened Lsm
  import opened LsmCompact

  /** What the witness leaves open: two values of any length, and how large a table of given entries is, when it is
      finished and while it is written. */
  datatype Case = Case(x: string, y: string, size: seq<Entry> -> nat, grown: seq<Entry> -> nat)

  /** Key 2 was put, then deleted; keys before it were put, key 1 twice. */
  function Writes(w: Case): Log {
    [Put(2, "old"), Delete(2), Put(0, w.x), Put(1, w.y), Put(1, "b")]
  }

  const E1: Entry := Entry(InternalKey(2, 1, Value), "old")
  const E2: Entry := Entry(InternalKey(2, 2, Deletion), "")
  const E5: Entry := Entry(InternalKey(1, 5, Value), "b")

  function E3(w: Case): Entry {
    Entry(InternalKey(0, 3, Value), w.x)
  }

  function E4(w: Case): Entry {
    Entry(InternalKey(1, 4, Value), w.y)
  }

  lemma TheEntries(w: Case)
    ensures var h := Writes(w); EntryOf(h, 1) == E1 && EntryOf(h, 2) == E2 && EntryOf(h, 3) == E3(w) && EntryOf(h, 4) == E4(w) && EntryOf(h, 5) == E5
  {
  }

  /** The table of number n. */
  function Sized(n: nat, es: seq<Entry>, w: Case): File
    requires es != []
  {
    TableOf(n, w.size(es), es)
  }

  function Upper(w: Case): File {
    Sized(11, [E5], w)
  }

  /** Two neighbours of level 2 that share user key 2: an earlier compaction, run while a snapshot
      held both versions of the key, closed its output file between them. */
  function Left(w: Case): File {
    Sized(8, [E3(w), E4(w), E2], w)
  }

  function Right(w: Case): File {
    Sized(9, [E1], w)
  }

  /** Files in levels 1 and 2 only. */
  function Levels(a: seq<File>, b: seq<File>): Version {
    seq(NUM_LEVELS, l => if l == 1 then a else if l == 2 then b else [])
  }

  function Split(w: Case): Version {
    Levels([Upper(w)], [Left(w), Right(w)])
  }

  lemma SplitIsLaidOut(w: Case)
    ensures VersionOk(Split(w)) && AllWrittenBy(VersionEntries(Split(w)), Writes(w))
    ensures EntriesOf([Upper(w)] + [Left(w)]) == {E5, E4(w), E3(w), E2}
    ensures VersionEntries(Split(w)) == EntriesOf([Upper(w)] + [Left(w)]) + {E1}
  {
    hide Disjoint, NumberOrder, Newer, Before, ValidFile, VersionEntries, EntriesOf;
    SplitEntries(w);
    SplitOrder(w);
    TheEntries(w);
    forall e | e in VersionEntries(Split(w)) ensures WrittenBy(e, Writes(w)) { }
  }

  lemma FilesAreValid(w: Case)
    ensures ValidFile(Upper(w)) && ValidFile(Left(w)) && ValidFile(Right(w)) && Before(Left(w), Right(w))
    ensures Newer(Upper(w), Left(w)) && Newer(Upper(w), Right(w))
  {
  }

  lemma SplitOrder(w: Case)
    ensures NumberOrder(Split(w)[0]) && LevelOrder(Split(w))
    ensures forall l: nat :: l < NUM_LEVELS ==> AllValid(Split(w)[l]) && Disjoint(Split(w)[l])
  {
    hide ValidFile, Newer, Before, TableOf;
    FilesAreValid(w);
    var v := Split(w);
    assert v[0] == [] && v[1] == [Upper(w)] && v[2] == [Left(w), Right(w)];
    assert forall l: nat :: 3 <= l < NUM_LEVELS ==> v[l] == [];
  }

  lemma SplitEntries(w: Case)
    ensures EntriesOf([Upper(w)] + [Left(w)]) == {E5, E4(w), E3(w), E2}
    ensures VersionEntries(Split(w)) == EntriesOf([Upper(w)] + [Left(w)]) + {E1}
  {
    var u, l, r, v := Upper(w), Left(w), Right(w), Split(w);
    assert u.entries == [E5] && r.entries == [E1] && l.entries == [E3(w), E4(w), E2];
    assert ([u] + [l])[0] == u && ([u] + [l])[1] == l;
    assert u in v[1] && l in v[2] && r in v[2];
    assert E5 in u.entries && E2 in l.entries && E3(w) in l.entries && E4(w) in l.entries && E1 in r.entries;
  }

  lemma TouchingPair(f: File, g: File)
    requires f.smallest.user <= 1 && f.largest.user == 2 == g.smallest.user
    ensures Touching([f, g], Some(1), Some(1)) == [f]
  {
    assert [f, g][..1] == [f] && [f][..0] == [];
    assert Touching([f], Some(1), Some(1)) == [f];
  }

  lemma SplitInputs(w: Case)
    ensures InputsOk(Split(w), 1, [Upper(w)], [Left(w)]) && NoGap([Upper(w)] + [Left(w)])
    ensures Touching(Split(w)[2], Some(1), Some(1)) == [Left(w)] && !OutputLevelClosed(Split(w), 1, [Left(w)])
  {
    var u, l, r, v := Upper(w), Left(w), Right(w), Split(w);
    assert u.smallest.user == 1 == u.largest.user && l.smallest.user == 0 && l.largest.user == 2;
    assert r in v[2] && l in [l] && Before(l, r);
    assert [u] + [l] == [u, l];
    assert OtherLevelClear(r, [u], [l]);
    assert v[1] == [u] && v[2] == [l, r];
    TouchingPair(l, r);
    assert NoGap([u] + [l]) by {
      assert u in [u, l] && l in [u, l];
    }
  }

  /** Merging level 1 into level 2 from these inputs turns the deleted key 2 back to "old". */
  lemma UnclosedOutputLosesDeletion(w: Case)
    ensures var v, u, l := Split(w), Upper(w), Left(w);
      VersionOk(v) && AllWrittenBy(VersionEntries(v), Writes(w)) &&
      InputsOk(v, 1, [u], [l]) && NoGap([u] + [l]) && Touching(v[2], Some(1), Some(1)) == [l] &&
      View(VersionEntries(v), 2, 5) == None == Lookup(Writes(w), 2, 5) &&
      View(Compacted(VersionEntries(v), EntriesOf([u] + [l]), 5, BaseOf(v, 1)), 2, 5) == Some("old")
  {
    hide Touching, InputsOk, NoGap, VersionOk, VersionEntries, EntriesOf, View;
    SplitIsLaidOut(w);
    SplitInputs(w);
    TheEntries(w);
    var c, inputs := VersionEntries(Split(w)), EntriesOf([Upper(w)] + [Left(w)]);
    assert !Hidden(c, E2, 5);
    assert BaseLevel(Split(w), 1, 2);
    assert c - inputs == {E1};
    OldIsSeen(w);
    KeyIsDeleted(w);
    UnsafeTombstoneChangesRead(c, inputs, Writes(w), 5, BaseOf(Split(w), 1), 5, E2);
  }

  lemma KeyIsDeleted(w: Case)
    ensures Lookup(Writes(w), 2, 5) == None
  {
    var h := Writes(w);
    assert Lookup(h, 2, 5) == Lookup(h, 2, 4) == Lookup(h, 2, 3) == Lookup(h, 2, 2) == None;
  }

  lemma OldIsSeen(w: Case)
    ensures View({E1}, 2, 2) == Some("old")
  {
    TheEntries(w);
    NewestIsUnique({E1}, Writes(w), 2, 2, E1);
  }
}
