/** Version edits, the builder that merges them into a version, and manifest replay. */
module Builder {
  import opened Keys
  import opened Files
  import opened Coding

  /** The file lists of the seven levels. */
  type Version = v: seq<seq<File>> | |v| == NUM_LEVELS witness seq(NUM_LEVELS, _ => [])

  const EmptyVersion: Version := seq(NUM_LEVELS, _ => [])

  /** The part of a version edit that changes one level. */
  datatype LevelEdit = LevelEdit(deleted: set<nat>, added: seq<File>)

  const NoChange := LevelEdit({}, [])

  type LevelEdits = es: seq<LevelEdit> | |es| == NUM_LEVELS witness seq(NUM_LEVELS, _ => NoChange)

  /** A version edit as it is logged: LogAndApply always records the log number, the next file number and the last sequence. */
  datatype LoggedEdit = LoggedEdit(levels: LevelEdits, logNumber: nat, nextFile: nat, lastSequence: nat)

  /** What the builder has gathered for one level: numbers deleted, files added in sorted order. */
  datatype LevelState = LevelState(deleted: set<nat>, added: seq<File>)

  /** std::set insertion under BySmallestKey: an equal element is not inserted again. */
  function InsertFile(fs: seq<File>, f: File): seq<File> {
    if fs == [] then [f]
    else if FileLess(fs[0], f) then [fs[0]] + InsertFile(fs[1..], f)
    else if FileLess(f, fs[0]) then [f] + fs
    else fs
  }

  /** Builder::Apply on one level, the added files being taken from index i on. */
  function ApplyAdded(st: LevelState, added: seq<File>): LevelState
    decreases |added|
  {
    if added == [] then st
    else ApplyAdded(LevelState(st.deleted - {added[0].number}, InsertFile(st.added, added[0])), added[1..])
  }

  function ApplyLevel(st: LevelState, e: LevelEdit): LevelState {
    ApplyAdded(LevelState(st.deleted + e.deleted, st.added), e.added)
  }

  /** The merge loop of SaveTo: base files up to and including each added file's place come first. */
  function Merge(base: seq<File>, added: seq<File>): seq<File> {
    if added == [] then base
    else if base != [] && !FileLess(added[0], base[0]) then [base[0]] + Merge(base[1..], added)
    else [added[0]] + Merge(base, added[1..])
  }

  /** MaybeAddFile: files whose number is marked deleted are left out. */
  function DropDeleted(fs: seq<File>, deleted: set<nat>): seq<File> {
    if fs == [] then []
    else (if fs[0].number in deleted then [] else [fs[0]]) + DropDeleted(fs[1..], deleted)
  }

  function SaveLevel(base: seq<File>, st: LevelState): seq<File> {
    DropDeleted(Merge(base, st.added), st.deleted)
  }

  /** One edit applied to one level, as LogAndApply does it. */
  function EditLevel(base: seq<File>, e: LevelEdit): seq<File> {
    SaveLevel(base, ApplyLevel(LevelState({}, []), e))
  }

  function EditVersion(v: Version, e: LoggedEdit): Version
  {
    seq(NUM_LEVELS, l requires 0 <= l < NUM_LEVELS => EditLevel(v[l], e.levels[l]))
  }

  function Numbers(fs: seq<File>): set<nat> {
    set f | f in fs :: f.number
  }

  // ------------------------------------------------------- what saving produces

  /** No two files of the list share a number. */
  ghost predicate DistinctNumbers(fs: seq<File>) {
    forall f, g :: f in fs && g in fs && f.number == g.number ==> f == g
  }

  ghost predicate FileBelowAll(f: File, fs: seq<File>) {
    forall g :: g in fs ==> FileLess(f, g)
  }

  lemma FileOrder(f: File, g: File)
    requires f.number == g.number ==> f == g
    ensures FileLess(f, g) || f == g || FileLess(g, f)
    ensures !(FileLess(f, g) && FileLess(g, f)) && !FileLess(f, f)
  {
    OrderIsTotal(f.smallest, g.smallest);
  }

  lemma FileLessTransitive(f: File, g: File, h: File)
    requires FileLess(f, g) && FileLess(g, h)
    ensures FileLess(f, h)
  {
  }

  lemma ConsSorted(f: File, fs: seq<File>)
    requires FileBelowAll(f, fs) && SortedFiles(fs)
    ensures SortedFiles([f] + fs)
  {
    var r := [f] + fs;
    forall i, j | 0 <= i < j < |r| ensures FileLess(r[i], r[j]) {
      assert r[j] == fs[j - 1];
      if i > 0 { assert r[i] == fs[i - 1]; }
    }
  }

  lemma HeadBelowTail(fs: seq<File>)
    requires fs != [] && SortedFiles(fs)
    ensures FileBelowAll(fs[0], fs[1..]) && SortedFiles(fs[1..])
    ensures forall f :: f in fs <==> f == fs[0] || f in fs[1..]
  {
    assert fs == [fs[0]] + fs[1..];
    forall g | g in fs[1..] ensures FileLess(fs[0], g) {
      var j :| 0 <= j < |fs[1..]| && fs[1..][j] == g;
      assert g == fs[j + 1];
    }
  }

  lemma {:induction false} InsertFileSpec(fs: seq<File>, f: File)
    requires SortedFiles(fs) && DistinctNumbers(fs + [f])
    ensures SortedFiles(InsertFile(fs, f))
    ensures forall g :: g in InsertFile(fs, f) <==> g in fs || g == f
  {
    if fs != [] {
      HeadBelowTail(fs);
      assert fs[0] in fs + [f] && f in fs + [f];
      FileOrder(fs[0], f);
      if FileLess(fs[0], f) {
        InsertFileSpec(fs[1..], f);
        ConsSorted(fs[0], InsertFile(fs[1..], f));
      } else if FileLess(f, fs[0]) {
        ConsSorted(f, fs);
      }
    }
  }

  lemma {:induction false} ApplyAddedSpec(st: LevelState, added: seq<File>)
    requires SortedFiles(st.added) && DistinctNumbers(st.added + added)
    ensures var r := ApplyAdded(st, added);
      SortedFiles(r.added) && r.deleted == st.deleted - Numbers(added) &&
      forall g :: g in r.added <==> g in st.added || g in added
    decreases |added|
  {
    if added != [] {
      var f := added[0];
      assert forall g :: g in added <==> g == f || g in added[1..];
      InsertFileSpec(st.added, f);
      ApplyAddedSpec(LevelState(st.deleted - {f.number}, InsertFile(st.added, f)), added[1..]);
    }
  }

  lemma {:induction false} MergeSpec(base: seq<File>, added: seq<File>)
    requires SortedFiles(base) && SortedFiles(added) && DistinctNumbers(base + added)
    requires forall f :: f in base ==> f !in added
    ensures SortedFiles(Merge(base, added))
    ensures forall g :: g in Merge(base, added) <==> g in base || g in added
  {
    if added != [] {
      HeadBelowTail(added);
      if base != [] { HeadBelowTail(base); }
      if base != [] && !FileLess(added[0], base[0]) {
        assert base[0] in base + added && added[0] in base + added;
        FileOrder(base[0], added[0]);
        MergeSpec(base[1..], added);
        ConsSorted(base[0], Merge(base[1..], added));
      } else {
        MergeSpec(base, added[1..]);
        forall g | g in Merge(base, added[1..]) ensures FileLess(added[0], g) {
          if g in base && g != base[0] { FileLessTransitive(added[0], base[0], g); }
        }
        ConsSorted(added[0], Merge(base, added[1..]));
      }
    }
  }

  lemma {:induction false} DropDeletedSpec(fs: seq<File>, deleted: set<nat>)
    requires SortedFiles(fs)
    ensures SortedFiles(DropDeleted(fs, deleted))
    ensures forall g :: g in DropDeleted(fs, deleted) <==> g in fs && g.number !in deleted
  {
    if fs != [] {
      HeadBelowTail(fs);
      DropDeletedSpec(fs[1..], deleted);
      var rest := DropDeleted(fs[1..], deleted);
      if fs[0].number in deleted {
        assert DropDeleted(fs, deleted) == rest;
      } else {
        ConsSorted(fs[0], rest);
      }
    }
  }

  /** The files a level holds after saving, as a set. */
  ghost predicate SavedFrom(r: seq<File>, base: seq<File>, added: seq<File>, deleted: set<nat>) {
    SortedFiles(r) && forall g :: g in r <==> (g in base || g in added) && g.number !in deleted
  }

  /** A file number is added to a level at most once, and never one the level already has. */
  ghost predicate FreshFor(base: seq<File>, added: seq<File>) {
    DistinctNumbers(base + added) && forall f :: f in base ==> f !in added
  }

  lemma SaveLevelSpec(base: seq<File>, st: LevelState)
    requires SortedFiles(base) && SortedFiles(st.added) && FreshFor(base, st.added)
    ensures SavedFrom(SaveLevel(base, st), base, st.added, st.deleted)
  {
    MergeSpec(base, st.added);
    DropDeletedSpec(Merge(base, st.added), st.deleted);
  }

  lemma EditLevelSpec(base: seq<File>, e: LevelEdit)
    requires SortedFiles(base) && FreshFor(base, e.added)
    ensures SavedFrom(EditLevel(base, e), base, e.added, e.deleted - Numbers(e.added))
  {
    assert forall f :: f in e.added ==> f in base + e.added;
    assert forall f :: f in [] + e.added ==> f in base + e.added;
    ApplyAddedSpec(LevelState({} + e.deleted, []), e.added);
    var st := ApplyLevel(LevelState({}, []), e);
    assert forall f :: f in base + st.added ==> f in base + e.added;
    SaveLevelSpec(base, st);
  }

  /** Sorted lists with the same files are the same list. */
  lemma {:induction false} SortedFilesUnique(a: seq<File>, b: seq<File>)
    requires SortedFiles(a) && SortedFiles(b)
    requires forall f :: f in a <==> f in b
    ensures a == b
  {
    assert (a != [] ==> a[0] in b) && (b != [] ==> b[0] in a);
    if a != [] {
      HeadBelowTail(a);
      HeadBelowTail(b);
      FileOrder(a[0], a[0]);
      assert a[0] == b[0];
      forall f ensures f in a[1..] <==> f in b[1..] {
        if f == a[0] { assert f !in a[1..] && f !in b[1..]; }
      }
      SortedFilesUnique(a[1..], b[1..]);
      assert a == [a[0]] + a[1..] && b == [b[0]] + b[1..];
    }
  }

  // ------------------------------------------------------------ manifest replay

  /** All edits gathered in one builder, as VersionSet::Recover does. */
  function Gather(edits: seq<LevelEdit>): LevelState {
    if edits == [] then LevelState({}, [])
    else ApplyLevel(Gather(edits[..|edits| - 1]), edits[|edits| - 1])
  }

  /** The edits applied one after another, as the running database did. */
  function ApplyEach(base: seq<File>, edits: seq<LevelEdit>): seq<File> {
    if edits == [] then base
    else EditLevel(ApplyEach(base, edits[..|edits| - 1]), edits[|edits| - 1])
  }

  function AllAdded(edits: seq<LevelEdit>): seq<File> {
    if edits == [] then []
    else AllAdded(edits[..|edits| - 1]) + edits[|edits| - 1].added
  }

  ghost predicate EachNumberOnce(fs: seq<File>) {
    forall i, j :: 0 <= i < j < |fs| ==> fs[i].number != fs[j].number
  }

  lemma PrefixOnce(a: seq<File>, b: seq<File>)
    requires EachNumberOnce(a + b)
    ensures EachNumberOnce(a) && DistinctNumbers(a + b)
    ensures forall f, g :: f in a && g in b ==> f.number != g.number
  {
    assert forall i :: 0 <= i < |a| ==> a[i] == (a + b)[i];
    assert forall i :: 0 <= i < |b| ==> b[i] == (a + b)[|a| + i];
  }

  /** Files added with new numbers are fresh for whatever is left of the files before. */
  lemma AddedAreFresh(fs: seq<File>, all: seq<File>, added: seq<File>)
    requires EachNumberOnce(all + added) && forall f :: f in fs ==> f in all
    ensures FreshFor(fs, added)
  {
    PrefixOnce(all, added);
    hide EachNumberOnce;
    assert forall f :: f in fs + added ==> f in all + added;
  }

  /** Saving twice is saving once what both leave. */
  lemma SavedTwice(base: seq<File>, past: seq<File>, r: seq<File>, deleted: set<nat>, e: LevelEdit, r': seq<File>, added': seq<File>)
    requires SavedFrom(r, base, past, deleted) && SavedFrom(r', r, e.added, e.deleted - Numbers(e.added))
    requires forall f, g :: (f in base || f in past) && g in e.added ==> f.number != g.number
    requires forall g :: g in added' <==> g in past || g in e.added
    ensures SavedFrom(r', base, added', deleted + e.deleted - Numbers(e.added))
  {
    hide SortedFiles;
    forall g ensures g in r' <==> (g in base || g in added') && g.number !in deleted + e.deleted - Numbers(e.added) {
      if g in base || g in past { assert g.number !in Numbers(e.added); }
    }
  }

  lemma EditGathered(base: seq<File>, past: seq<File>, st: LevelState, r: seq<File>, e: LevelEdit)
    requires EachNumberOnce(base + past + e.added) && SortedFiles(st.added) && (forall g :: g in st.added <==> g in past)
    requires SavedFrom(r, base, st.added, st.deleted)
    ensures var st' := ApplyLevel(st, e);
      SortedFiles(st'.added) && (forall g :: g in st'.added <==> g in past || g in e.added) &&
      SavedFrom(EditLevel(r, e), base, st'.added, st'.deleted)
  {
    hide InsertFile, Merge, DropDeleted, EachNumberOnce, SortedFiles, EditLevel;
    PrefixOnce(base + past, e.added);
    AddedAreFresh(st.added, base + past, e.added);
    AddedAreFresh(r, base + past, e.added);
    hide DistinctNumbers;
    ApplyAddedSpec(LevelState(st.deleted + e.deleted, st.added), e.added);
    SortedSaved(r, base, st.added, st.deleted);
    EditLevelSpec(r, e);
    SavedTwice(base, st.added, r, st.deleted, e, EditLevel(r, e), ApplyLevel(st, e).added);
  }

  lemma SortedSaved(r: seq<File>, base: seq<File>, added: seq<File>, deleted: set<nat>)
    requires SavedFrom(r, base, added, deleted)
    ensures SortedFiles(r)
  {
  }

  lemma {:induction false} GatherFollows(base: seq<File>, edits: seq<LevelEdit>)
    requires SortedFiles(base) && EachNumberOnce(base + AllAdded(edits))
    ensures var st := Gather(edits);
      SortedFiles(st.added) && (forall g :: g in st.added <==> g in AllAdded(edits)) &&
      SavedFrom(ApplyEach(base, edits), base, st.added, st.deleted)
  {
    if edits != [] {
      hide SortedFiles, EachNumberOnce, SavedFrom, ApplyLevel, EditLevel;
      var init, e := edits[..|edits| - 1], edits[|edits| - 1];
      var past := AllAdded(init);
      assert base + AllAdded(edits) == base + past + e.added;
      PrefixOnce(base + past, e.added);
      GatherFollows(base, init);
      EditGathered(base, past, Gather(init), ApplyEach(base, init), e);
    } else {
      assert base + AllAdded(edits) == base;
    }
  }

  /** Gathering every edit in one builder and saving once gives exactly the list that
      saving after each edit gives, when no file number is added to the level twice. */
  lemma ReplayEqualsStepwise(base: seq<File>, edits: seq<LevelEdit>)
    requires SortedFiles(base) && EachNumberOnce(base + AllAdded(edits))
    ensures SaveLevel(base, Gather(edits)) == ApplyEach(base, edits)
  {
    GatherFollows(base, edits);
    PrefixOnce(base, AllAdded(edits));
    var st := Gather(edits);
    assert forall f :: f in base + st.added ==> f in base + AllAdded(edits);
    SaveLevelSpec(base, st);
    SortedFilesUnique(SaveLevel(base, st), ApplyEach(base, edits));
  }

  type Manifest = seq<LoggedEdit>

  function LevelPart(m: Manifest, l: nat): seq<LevelEdit>
    requires l < NUM_LEVELS
  {
    seq(|m|, i requires 0 <= i < |m| => m[i].levels[l])
  }

  /** The version that VersionSet::Recover rebuilds from the manifest's edits. */
  function Replay(m: Manifest): (v: Version)
  {
    seq(NUM_LEVELS, l requires 0 <= l < NUM_LEVELS => SaveLevel([], Gather(LevelPart(m, l))))
  }

  /** Numbers of the files the manifest ever added to level l. */
  function AddedAt(m: Manifest, l: nat): set<nat>
    requires l < NUM_LEVELS
  {
    Numbers(AllAdded(LevelPart(m, l)))
  }

  ghost predicate AddsEachOnce(m: Manifest) {
    forall l: nat :: l < NUM_LEVELS ==> EachNumberOnce(AllAdded(LevelPart(m, l)))
  }

  /** The new edit adds to each level only numbers that were never added there. */
  ghost predicate AddsFresh(m: Manifest, e: LoggedEdit)
  {
    forall l: nat :: l < NUM_LEVELS ==>
      EachNumberOnce(e.levels[l].added) && Numbers(e.levels[l].added) !! AddedAt(m, l)
  }

  lemma LevelPartAppend(m: Manifest, e: LoggedEdit, l: nat)
    requires l < NUM_LEVELS
    ensures LevelPart(m + [e], l) == LevelPart(m, l) + [e.levels[l]]
    ensures AllAdded(LevelPart(m + [e], l)) == AllAdded(LevelPart(m, l)) + e.levels[l].added
    ensures AddedAt(m + [e], l) == AddedAt(m, l) + Numbers(e.levels[l].added)
  {
    var a, b := LevelPart(m, l), LevelPart(m + [e], l);
    assert b == a + [e.levels[l]];
    assert b[..|b| - 1] == a;
  }

  lemma ReplayAppendAt(m: Manifest, e: LoggedEdit, l: nat)
    requires l < NUM_LEVELS
    requires EachNumberOnce(AllAdded(LevelPart(m, l)))
    requires EachNumberOnce(e.levels[l].added) && Numbers(e.levels[l].added) !! AddedAt(m, l)
    ensures EachNumberOnce(AllAdded(LevelPart(m + [e], l)))
    ensures SaveLevel([], Gather(LevelPart(m + [e], l)))
         == EditLevel(SaveLevel([], Gather(LevelPart(m, l))), e.levels[l])
  {
    LevelPartAppend(m, e, l);
    var a, b := LevelPart(m, l), LevelPart(m + [e], l);
    var past, more := AllAdded(a), e.levels[l].added;
    var both := past + more;
    forall i, j | 0 <= i < j < |both| ensures both[i].number != both[j].number {
      if i < |past| <= j {
        assert past[i].number in AddedAt(m, l) && more[j - |past|].number in Numbers(more);
      }
    }
    assert [] + AllAdded(b) == both && [] + past == past;
    ReplayEqualsStepwise([], a);
    ReplayEqualsStepwise([], b);
    assert b[..|b| - 1] == a;
  }

  /** Logging an edit and replaying the longer manifest gives the version that LogAndApply
      installed. */
  lemma ReplayAppend(m: Manifest, e: LoggedEdit)
    requires AddsEachOnce(m) && AddsFresh(m, e)
    ensures AddsEachOnce(m + [e])
    ensures Replay(m + [e]) == EditVersion(Replay(m), e)
  {
    forall l: nat | l < NUM_LEVELS
      ensures EachNumberOnce(AllAdded(LevelPart(m + [e], l)))
      ensures Replay(m + [e])[l] == EditVersion(Replay(m), e)[l]
    {
      ReplayAppendAt(m, e, l);
    }
  }

  /** Every file a replayed level holds was added to that level. */
  lemma ReplayHolds(m: Manifest, l: nat)
    requires AddsEachOnce(m) && l < NUM_LEVELS
    ensures SortedFiles(Replay(m)[l]) && DistinctNumbers(Replay(m)[l])
    ensures Numbers(Replay(m)[l]) <= AddedAt(m, l)
  {
    var a := LevelPart(m, l);
    assert [] + AllAdded(a) == AllAdded(a) == AllAdded(a) + [];
    PrefixOnce(AllAdded(a), []);
    GatherFollows([], a);
    ReplayEqualsStepwise([], a);
  }

  /** WriteSnapshot: one edit that adds every file of the version. */
  function Snapshot(v: Version, logNumber: nat, nextFile: nat, lastSequence: nat): (e: LoggedEdit)
  {
    LoggedEdit(seq(NUM_LEVELS, l requires 0 <= l < NUM_LEVELS => LevelEdit({}, v[l])),
                logNumber, nextFile, lastSequence)
  }

  /** A fresh manifest that starts with the snapshot of v replays to v. */
  lemma SnapshotReplays(v: Version, logNumber: nat, nextFile: nat, lastSequence: nat)
    requires forall l :: 0 <= l < NUM_LEVELS ==> SortedFiles(v[l]) && EachNumberOnce(v[l])
    ensures var m := [Snapshot(v, logNumber, nextFile, lastSequence)];
      AddsEachOnce(m) && Replay(m) == v && forall l: nat :: l < NUM_LEVELS ==> AddedAt(m, l) == Numbers(v[l])
  {
    var e := Snapshot(v, logNumber, nextFile, lastSequence);
    forall l: nat | l < NUM_LEVELS
      ensures EachNumberOnce(AllAdded(LevelPart([e], l))) && Replay([e])[l] == v[l] && AddedAt([e], l) == Numbers(v[l])
    {
      assert [] + [e] == [e];
      LevelPartAppend([], e, l);
      assert AllAdded(LevelPart([e], l)) == v[l] && LevelPart([e], l) == [e.levels[l]];
      assert [] + v[l] == v[l];
      PrefixOnce([], v[l]);
      GatherFollows([], [e.levels[l]]);
      ReplayEqualsStepwise([], [e.levels[l]]);
      assert ApplyEach([], [e.levels[l]]) == EditLevel([], e.levels[l]);
      EditLevelSpec([], e.levels[l]);
      SortedFilesUnique(Replay([e])[l], v[l]);
    }
  }

  // ------------------------------------------------------------ the mutable builder

  /** The compaction pointers after those of an edit, each of a level and an encoded key. */
  function Pointed(pointers: seq<Bytes>, more: seq<(nat, Bytes)>): (r: seq<Bytes>)
    ensures |r| == |pointers|
  {
    if more == [] then pointers
    else
      var before, last := Pointed(pointers, more[..|more| - 1]), more[|more| - 1];
      if last.0 < |pointers| then before[last.0 := last.1] else before
  }

  /** Of each level the last pointer counts, and one that is not named stays. */
  lemma {:induction false} PointedAt(pointers: seq<Bytes>, more: seq<(nat, Bytes)>, l: nat, i: nat)
    requires l < |pointers| && i <= |more| && forall j :: i <= j < |more| ==> more[j].0 != l
    ensures Pointed(pointers, more)[l] == if i > 0 && more[i - 1].0 == l then more[i - 1].1 else Pointed(pointers, more[..i])[l]
    decreases |more|
  {
    if i < |more| {
      var n := |more| - 1;
      PointedAt(pointers, more[..n], l, i);
      assert more[..n][..i] == more[..i];
    } else {
      assert more[..i] == more;
    }
  }

  /** VersionSet::Builder: the per-level sets it fills in and the version it saves. */
  class VersionBuilder {
    const base: Version
    var levels: seq<LevelState>
    /** compact_pointer_ of the version set it works for; an empty string for none. */
    var compactPointers: seq<Bytes>

    ghost predicate Valid() reads this {
      |levels| == |compactPointers| == NUM_LEVELS
    }

    constructor (b: Version, pointers: seq<Bytes>)
      requires |pointers| == NUM_LEVELS
      ensures Valid() && base == b && compactPointers == pointers
      ensures forall l :: 0 <= l < NUM_LEVELS ==> levels[l] == Gather([])
    {
      base := b;
      compactPointers := pointers;
      levels := seq(NUM_LEVELS, _ => LevelState({}, []));
    }

    /** Compaction pointers, then deletions, then each new file, which also clears an earlier deletion mark. */
    method Apply(e: LoggedEdit, pointers: seq<(nat, Bytes)>)
      requires Valid() && forall p :: p in pointers ==> p.0 < NUM_LEVELS
      modifies this
      ensures Valid() && compactPointers == Pointed(old(compactPointers), pointers)
      ensures forall l :: 0 <= l < NUM_LEVELS ==> levels[l] == ApplyLevel(old(levels)[l], e.levels[l])
    {
      for i := 0 to |pointers|
        invariant levels == old(levels) && |compactPointers| == NUM_LEVELS && compactPointers == Pointed(old(compactPointers), pointers[..i])
      {
        assert pointers[i] in pointers && pointers[..i + 1][..i] == pointers[..i];
        compactPointers := compactPointers[pointers[i].0 := pointers[i].1];
      }
      assert pointers[..|pointers|] == pointers;
      for l := 0 to NUM_LEVELS
        invariant |levels| == NUM_LEVELS && compactPointers == Pointed(old(compactPointers), pointers)
        invariant forall k :: 0 <= k < l ==> levels[k] == ApplyLevel(old(levels)[k], e.levels[k])
        invariant forall k :: l <= k < NUM_LEVELS ==> levels[k] == old(levels)[k]
      {
        var st := LevelState(levels[l].deleted + e.levels[l].deleted, levels[l].added);
        var added := e.levels[l].added;
        for i := 0 to |added|
          invariant ApplyAdded(st, added[i..]) == ApplyLevel(old(levels)[l], e.levels[l])
        {
          var f := added[i];
          assert added[i..][0] == f && added[i..][1..] == added[i + 1..];
          st := LevelState(st.deleted - {f.number}, InsertFile(st.added, f));
        }
        levels := levels[l := st];
      }
    }

    method SaveTo() returns (v: Version)
      requires Valid()
        ensures forall l :: 0 <= l < NUM_LEVELS ==> v[l] == SaveLevel(base[l], levels[l])
    {
      v := EmptyVersion;
      for l := 0 to NUM_LEVELS
        invariant forall k :: 0 <= k < l ==> v[k] == SaveLevel(base[k], levels[k])
      {
        var files := SaveOne(base[l], levels[l]);
        v := v[l := files];
      }
    }

    static method MaybeAddFile(files: seq<File>, deleted: set<nat>, f: File) returns (r: seq<File>)
      ensures r == files + Kept(f, deleted)
    {
      r := files;
      if f.number !in deleted { r := r + [f]; }
    }

    static method SaveOne(baseFiles: seq<File>, st: LevelState) returns (r: seq<File>)
      ensures r == SaveLevel(baseFiles, st)
    {
      r := [];
      var b := 0;
      for a := 0 to |st.added|
        invariant 0 <= b <= |baseFiles| && SavedUpTo(r, baseFiles, b, st, a)
      {
        while b < |baseFiles| && !FileLess(st.added[a], baseFiles[b])
          invariant 0 <= b <= |baseFiles| && SavedUpTo(r, baseFiles, b, st, a)
        {
          UnsavedTakesBase(r, baseFiles, b, st, a);
          r := MaybeAddFile(r, st.deleted, baseFiles[b]);
          b := b + 1;
        }
        UnsavedTakesAdded(r, baseFiles, b, st, a);
        r := MaybeAddFile(r, st.deleted, st.added[a]);
      }
      while b < |baseFiles|
        invariant 0 <= b <= |baseFiles| && SavedUpTo(r, baseFiles, b, st, |st.added|)
      {
        UnsavedTakesBase(r, baseFiles, b, st, |st.added|);
        r := MaybeAddFile(r, st.deleted, baseFiles[b]);
        b := b + 1;
      }
    }
  }

  function Kept(f: File, deleted: set<nat>): seq<File> {
    if f.number in deleted then [] else [f]
  }

  /** r holds the merge of what lies before b base files and a added files: appending the
      merge of the rest gives the whole saved level. */
  ghost predicate SavedUpTo(r: seq<File>, base: seq<File>, b: nat, st: LevelState, a: nat)
    requires b <= |base| && a <= |st.added|
  {
    r + DropDeleted(Merge(base[b..], st.added[a..]), st.deleted) == SaveLevel(base, st)
  }

  lemma UnsavedTakesBase(r: seq<File>, base: seq<File>, b: nat, st: LevelState, a: nat)
    requires b < |base| && a <= |st.added| && SavedUpTo(r, base, b, st, a)
    requires a < |st.added| ==> !FileLess(st.added[a], base[b])
    ensures SavedUpTo(r + Kept(base[b], st.deleted), base, b + 1, st, a)
  {
    var m := Merge(base[b..], st.added[a..]);
    assert base[b..][1..] == base[b + 1..];
    assert m[0] == base[b] && m[1..] == Merge(base[b + 1..], st.added[a..]);
  }

  lemma UnsavedTakesAdded(r: seq<File>, base: seq<File>, b: nat, st: LevelState, a: nat)
    requires b <= |base| && a < |st.added| && SavedUpTo(r, base, b, st, a)
    requires b < |base| ==> FileLess(st.added[a], base[b])
    ensures SavedUpTo(r + Kept(st.added[a], st.deleted), base, b, st, a + 1)
  {
    var m := Merge(base[b..], st.added[a..]);
    assert st.added[a..][1..] == st.added[a + 1..];
    assert m[0] == st.added[a] && m[1..] == Merge(base[b..], st.added[a + 1..]);
  }
}
