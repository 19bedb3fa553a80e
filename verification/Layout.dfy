/** How flushes and compactions rearrange a version, and why the layout survives them. */
module Layout {
  import opened Keys
  import opened Files
  import opened Ranges
  import opened Builder
  import opened Reads
  import opened Pick

  /** r is the sorted list of fs without the removed files and with the added ones. */
  ghost predicate LevelChange(fs: seq<File>, r: seq<File>, removed: seq<File>, added: seq<File>) {
    SortedFiles(r) && forall g :: g in r <==> (g in fs && g !in removed) || g in added
  }

  /** v' is v with file f added to one level. */
  ghost predicate WithFile(v: Version, v': Version, level: nat, f: File) {
    level < NUM_LEVELS &&
    forall l: nat :: l < NUM_LEVELS ==> LevelChange(v[l], v'[l], [], if l == level then [f] else [])
  }

  /** v' is v with inputs of levels c and c+1 replaced by outs in level c+1. */
  ghost predicate WithMoved(v: Version, v': Version, c: nat, in0: seq<File>, in1: seq<File>, outs: seq<File>) {
    c + 1 < NUM_LEVELS &&
    LevelChange(v[c], v'[c], in0, []) && LevelChange(v[c + 1], v'[c + 1], in1, outs) &&
    forall l: nat :: l < NUM_LEVELS && l != c && l != c + 1 ==> LevelChange(v[l], v'[l], [], [])
  }

  ghost predicate NewerThanVersion(f: File, v: Version) {
    forall l: nat, g :: l < |v| && g in v[l] ==> Newer(f, g)
  }

  // ------------------------------------------------------------------ flush

  lemma FlushKeepsDisjoint(v: Version, v': Version, level: nat, f: File)
    requires VersionOk(v) && ValidFile(f) && WithFile(v, v', level, f)
    requires FlushLevelOk(v, f.smallest.user, f.largest.user, level) && 1 <= level
    ensures Disjoint(v'[level])
  {
    DisjointIsApart(v[level]);
    assert MissesAll(v[level], f.smallest.user, f.largest.user);
    forall g, g' | g in v'[level] && g' in v'[level] && g != g' ensures Before(g, g') || Before(g', g) {
      if g == f { assert Misses(g', f.smallest.user, f.largest.user); }
      if g' == f { assert Misses(g, f.smallest.user, f.largest.user); }
    }
    SortedApartIsDisjoint(v'[level]);
  }

  /** A flushed table is newer than everything, and lands only where no shallower file shares its range. */
  lemma FlushKeepsLayout(v: Version, v': Version, level: nat, f: File)
    requires VersionOk(v) && (forall l: nat :: l < NUM_LEVELS ==> SortedFiles(v[l])) && ValidFile(f)
    requires WithFile(v, v', level, f)
    requires FlushLevelOk(v, f.smallest.user, f.largest.user, level)
    requires NewerThanVersion(f, v) && forall g :: g in v[0] ==> g.number < f.number
    ensures VersionOk(v')
  {
    forall l: nat | 1 <= l < NUM_LEVELS ensures Disjoint(v'[l]) {
      if l == level {
        FlushKeepsDisjoint(v, v', level, f);
      } else {
        SortedFilesUnique(v[l], v'[l]);
      }
    }
    assert NumberOrder(v'[0]);
    forall a: nat, b: nat, g, g' | a < b < NUM_LEVELS && g in v'[a] && g' in v'[b] ensures Newer(g, g') {
      if b == level && g' == f {
        assert MissesAll(v[a], f.smallest.user, f.largest.user);
        MissingFilesAreNewer(g, f);
      } else if a == level && g == f {
      } else {
        assert g in v[a] && g' in v[b];
      }
    }
  }

  /** While a compaction runs, a flushed table falls wholly to one side of its connected inputs
      whenever it lands at or below the output level. */
  lemma FlushMissesInputs(v: Version, c: nat, in0: seq<File>, in1: seq<File>, level: nat, f: File)
    requires InputsOk(v, c, in0, in1) && NoGap(in0 + in1) && ValidFile(f)
    requires FlushLevelOk(v, f.smallest.user, f.largest.user, level) && c + 1 <= level
    ensures AllBelow(in0 + in1, f.smallest.user) || AllAbove(in0 + in1, f.largest.user)
  {
    EndsAreEntries(f);
    assert MissesAll(v[c], f.smallest.user, f.largest.user) && MissesAll(v[c + 1], f.smallest.user, f.largest.user);
    forall g | g in in0 + in1 ensures Misses(g, f.smallest.user, f.largest.user) {
    }
    assert MissesAll(in0 + in1, f.smallest.user, f.largest.user);
  }

  lemma FlushKeepsInputs(v: Version, v': Version, c: nat, in0: seq<File>, in1: seq<File>, level: nat, f: File)
    requires InputsOk(v, c, in0, in1) && NoGap(in0 + in1) && ValidFile(f)
    requires WithFile(v, v', level, f) && FlushLevelOk(v, f.smallest.user, f.largest.user, level)
    requires NewerThanVersion(f, v)
    ensures InputsOk(v', c, in0, in1)
  {
    forall g | g in v'[c + 1] && g !in in1 ensures OtherLevelClear(g, in0, in1) {
      if g !in v[c + 1] {
        FlushMissesInputs(v, c, in0, in1, level, f);
        forall x | x in in0 + in1
          ensures x.largest.user < f.smallest.user ==> Before(x, f)
          ensures f.largest.user < x.smallest.user ==> Before(f, x)
        {
        }
        assert forall x :: x in in0 ==> x in in0 + in1;
      }
    }
  }

  // ------------------------------------------------------------------ moves

  /** Every entry of the outputs comes from an input file. */
  ghost predicate FromInputs(outs: seq<File>, in0: seq<File>, in1: seq<File>) {
    forall o, e :: o in outs && e in o.entries ==> exists g :: g in in0 + in1 && e in g.entries
  }

  ghost predicate InRow(outs: seq<File>) {
    AllValid(outs) && Disjoint(outs)
  }

  /** Whatever is newer, or older, than every input is newer, or older, than every output. */
  lemma OutputsAgeLikeInputs(outs: seq<File>, in0: seq<File>, in1: seq<File>, o: File, g: File)
    requires FromInputs(outs, in0, in1) && o in outs
    ensures (forall x :: x in in0 + in1 ==> Newer(g, x)) ==> Newer(g, o)
    ensures (forall x :: x in in0 + in1 ==> Newer(x, g)) ==> Newer(o, g)
  {
    forall e | e in o.entries
      ensures exists x :: x in in0 + in1 && e in x.entries
    {
    }
  }

  lemma OutputsToOneSide(outs: seq<File>, in0: seq<File>, in1: seq<File>, o: File, g: File)
    requires FromInputs(outs, in0, in1) && o in outs && ValidFile(o)
    requires AllValid(in0 + in1) && ToOneSide(g, in0 + in1)
    ensures Before(g, o) || Before(o, g)
  {
    hide Sorted;
    var first, last := o.entries[0], o.entries[|o.entries| - 1];
    assert first in o.entries && last in o.entries;
    if x :| x in in0 + in1 && first in x.entries && Before(g, x) {
      EntryInRange(x, first);
    } else {
      var y :| y in in0 + in1 && last in y.entries;
      assert Before(y, g);
      EntryInRange(y, last);
    }
  }

  lemma MoveKeepsDisjoint(v: Version, v': Version, c: nat, in0: seq<File>, in1: seq<File>, outs: seq<File>)
    requires VersionOk(v) && InputsOk(v, c, in0, in1) && WithMoved(v, v', c, in0, in1, outs)
    requires FromInputs(outs, in0, in1) && InRow(outs)
    ensures Disjoint(v'[c + 1])
  {
    DisjointIsApart(v[c + 1]);
    DisjointIsApart(outs);
    forall g, g' | g in v'[c + 1] && g' in v'[c + 1] && g != g' ensures Before(g, g') || Before(g', g) {
      if g in outs && g' !in outs { OutputsToOneSide(outs, in0, in1, g, g'); }
      if g' in outs && g !in outs { OutputsToOneSide(outs, in0, in1, g', g); }
    }
    SortedApartIsDisjoint(v'[c + 1]);
  }

  lemma SubsetStaysDisjoint(fs: seq<File>, r: seq<File>)
    requires AllValid(fs) && Disjoint(fs) && SortedFiles(r) && AllIn(r, fs)
    ensures Disjoint(r)
  {
    DisjointIsApart(fs);
    SortedApartIsDisjoint(r);
  }

  lemma MoveKeepsAge(v: Version, v': Version, c: nat, in0: seq<File>, in1: seq<File>, outs: seq<File>,
                     a: nat, b: nat, g: File, g': File)
    requires VersionOk(v) && InputsOk(v, c, in0, in1) && WithMoved(v, v', c, in0, in1, outs)
    requires FromInputs(outs, in0, in1)
    requires a < b < NUM_LEVELS && g in v'[a] && g' in v'[b]
    ensures Newer(g, g')
  {
    if b == c + 1 && g' in outs {
      assert g in v[a];
      forall x | x in in0 + in1 ensures Newer(g, x) {
        if x in in0 && a == c { assert g !in in0; }
      }
      OutputsAgeLikeInputs(outs, in0, in1, g', g);
    } else if a == c + 1 && g in outs {
      assert g' in v[b];
      forall x | x in in0 + in1 ensures Newer(x, g') {
      }
      OutputsAgeLikeInputs(outs, in0, in1, g, g');
    } else {
      assert g in v[a] && g' in v[b];
    }
  }

  lemma MoveKeepsValid(v: Version, v': Version, c: nat, in0: seq<File>, in1: seq<File>, outs: seq<File>)
    requires VersionOk(v) && InputsOk(v, c, in0, in1) && WithMoved(v, v', c, in0, in1, outs) && InRow(outs)
    ensures forall l: nat :: l < NUM_LEVELS ==> AllValid(v'[l])
    ensures forall l: nat :: l < NUM_LEVELS && l != c + 1 ==> AllIn(v'[l], v[l]) && SortedFiles(v'[l])
  {
    hide ValidFile, Disjoint, NumberOrder, LevelOrder, LeftoverNewer, OtherLevelClear, NoDuplicates, FileLess;
  }

  lemma MoveKeepsNumberOrder(v: Version, v': Version, c: nat, in0: seq<File>, in1: seq<File>, outs: seq<File>)
    requires VersionOk(v) && InputsOk(v, c, in0, in1) && WithMoved(v, v', c, in0, in1, outs)
    ensures NumberOrder(v'[0])
  {
    hide ValidFile, Disjoint, LevelOrder, LeftoverNewer, OtherLevelClear, NoDuplicates, FileLess, Newer;
  }

  /** Replacing the inputs of a compaction by outputs made of their entries keeps the layout. */
  lemma MoveKeepsLayout(v: Version, v': Version, c: nat, in0: seq<File>, in1: seq<File>, outs: seq<File>)
    requires VersionOk(v) && InputsOk(v, c, in0, in1) && WithMoved(v, v', c, in0, in1, outs)
    requires FromInputs(outs, in0, in1) && InRow(outs)
    ensures VersionOk(v')
  {
    hide ValidFile, Disjoint, NumberOrder, LeftoverNewer, OtherLevelClear, NoDuplicates, Newer, InRow, SortedFiles;
    MoveKeepsValid(v, v', c, in0, in1, outs);
    forall l: nat | 0 < l < NUM_LEVELS ensures Disjoint(v'[l]) {
      if l == c + 1 {
        MoveKeepsDisjoint(v, v', c, in0, in1, outs);
      } else {
        SubsetStaysDisjoint(v[l], v'[l]);
      }
    }
    MoveKeepsNumberOrder(v, v', c, in0, in1, outs);
    forall a: nat, b: nat, g, g' | a < b < NUM_LEVELS && g in v'[a] && g' in v'[b] ensures Newer(g, g') {
      MoveKeepsAge(v, v', c, in0, in1, outs, a, b, g, g');
    }
  }
}
