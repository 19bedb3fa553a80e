/** Choosing the inputs of a compaction and the level of a flushed memtable. */
module Pick {
  import opened Keys
  import opened History
  import opened Files
  import opened Ranges
  import opened Builder
  import opened Reads

  const MAX_MEM_COMPACT_LEVEL := 2

  /** Files of the level left out of fs hold only newer data than fs. */
  ghost predicate LeftoverNewer(level: seq<File>, fs: seq<File>) {
    forall f, g :: f in level && f !in fs && g in fs ==> Newer(f, g)
  }

  /** f lies wholly before all of fs, or wholly after. */
  ghost predicate ToOneSide(f: File, fs: seq<File>) {
    (forall g :: g in fs ==> Before(f, g)) || (forall g :: g in fs ==> Before(g, f))
  }

  /** Files left behind in level c+1 lie to one side of everything merged and share no user key
      range with the inputs of level c. */
  ghost predicate OtherLevelClear(f: File, in0: seq<File>, in1: seq<File>) {
    ToOneSide(f, in0 + in1) && forall g :: g in in0 ==> Misses(f, g.smallest.user, g.largest.user)
  }

  /** What a compaction of level c needs of its inputs. */
  ghost predicate InputsOk(v: Version, c: nat, in0: seq<File>, in1: seq<File>) {
    c + 1 < NUM_LEVELS &&
    in0 != [] && NoDuplicates(in0) && NoDuplicates(in1) &&
    AllIn(in0, v[c]) && AllIn(in1, v[c + 1]) && LeftoverNewer(v[c], in0) &&
    forall f :: f in v[c + 1] && f !in in1 ==> OtherLevelClear(f, in0, in1)
  }

  // ------------------------------------------------- closure on the level's own side

  lemma TouchingIsConvex(fs: seq<File>, lo: Option<UserKey>, hi: Option<UserKey>)
    requires AllValid(fs)
    ensures Convex(fs, Touching(fs, lo, hi))
  {
    hide ValidFile, Touching;
    var t := Touching(fs, lo, hi);
    forall f, g, h | f in fs && g in t && h in t && Before(g, f) && Before(f, h) ensures f in t {
      BetweenTouches(fs, lo, hi, g, f, h);
    }
  }

  lemma BetweenTouches(fs: seq<File>, lo: Option<UserKey>, hi: Option<UserKey>, g: File, f: File, h: File)
    requires f in fs && g in Touching(fs, lo, hi) && h in Touching(fs, lo, hi) && Before(g, f) && Before(f, h)
    requires ValidFile(f) && ValidFile(g) && ValidFile(h)
    ensures f in Touching(fs, lo, hi)
  {
    hide ValidFile, Touching;
    EndsAreEntries(f);
    EndsAreEntries(g);
    EndsAreEntries(h);
  }

  /** Levels 1 and up: with nothing skipped and the last user key complete, what stays behind is newer. */
  lemma ConvexClosedLeavesNewer(level: seq<File>, fs: seq<File>, h: Log)
    requires AllValid(level) && Disjoint(level) && AllIn(fs, level)
    requires AllWrittenBy(EntriesOf(level), h)
    requires Convex(level, fs) && BoundaryClosed(level, fs)
    ensures LeftoverNewer(level, fs)
  {
    hide BoundaryClosed, Convex, Disjoint, ValidFile, Less;
    DisjointIsApart(level);
    forall f, g | f in level && f !in fs && g in fs ensures Newer(f, g) {
      forall e, d | e in f.entries && d in g.entries && e.key.user == d.key.user ensures e.key.sn > d.key.sn {
        EntryInRange(f, e);
        EntryInRange(g, d);
        assert e in EntriesOf(level) && d in EntriesOf(level);
        assert Before(f, g) || Before(g, f);
        if Before(g, f) {
          NoUserKeyShared(level, fs, f, g, e, d);
        } else {
          NewerInOrder(f, g, e, d, h);
        }
      }
    }
  }

  lemma NoUserKeyShared(level: seq<File>, fs: seq<File>, f: File, g: File, e: Entry, d: Entry)
    requires AllValid(level) && PairwiseApart(level) && AllIn(fs, level)
    requires Convex(level, fs) && BoundaryClosed(level, fs)
    requires f in level && f !in fs && g in fs && Before(g, f) && e in f.entries && d in g.entries
    ensures e.key.user != d.key.user
  {
    hide BoundaryClosed, Convex, PairwiseApart;
    EntryInRange(f, e);
    EntryInRange(g, d);
    if g.largest.user == f.smallest.user { SplitUserKeyIsChosen(level, fs, f, g); }
  }

  /** Of two entries of a user key, the one in the earlier file is newer. */
  lemma NewerInOrder(f: File, g: File, e: Entry, d: Entry, h: Log)
    requires ValidFile(f) && ValidFile(g) && Before(f, g) && e in f.entries && d in g.entries && e.key.user == d.key.user
    requires WrittenBy(e, h) && WrittenBy(d, h)
    ensures e.key.sn > d.key.sn
  {
    hide Sorted;
    EntryInRange(f, e);
    EntryInRange(g, d);
  }

  /** A file that continues the last user key of a chosen file is chosen. */
  lemma SplitUserKeyIsChosen(level: seq<File>, fs: seq<File>, f: File, g: File)
    requires AllValid(level) && PairwiseApart(level) && AllIn(fs, level)
    requires Convex(level, fs) && BoundaryClosed(level, fs)
    requires f in level && g in fs && Before(g, f) && g.largest.user == f.smallest.user
    ensures f in fs
  {
    var k := LargestOf(fs);
    var m :| m in fs && m.largest == k;
    EndsAreEntries(f);
    EndsAreEntries(m);
    assert AtMost(g.largest, k);
    if f != m && !Before(f, m) {
      assert Before(m, f);
      assert BoundaryAfter(f, k);
    }
  }

  lemma {:induction false} LargestOf(fs: seq<File>) returns (k: InternalKey)
    requires fs != []
    ensures IsLargest(fs, k)
  {
    k := fs[0].largest;
    if |fs| > 1 {
      var k' := LargestOf(fs[1..]);
      OrderIsTotal(k, k');
      assert fs == [fs[0]] + fs[1..];
      if Less(k, k') { k := k'; }
    }
  }

  /** Level 0: a closed range leaves only files with no user key in common. */
  lemma ClosedRangeLeavesNewer(level: seq<File>, lo: Option<UserKey>, hi: Option<UserKey>)
    requires AllValid(level) && ClosedRange(level, lo, hi)
    ensures LeftoverNewer(level, Touching(level, lo, hi))
  {
    forall f, g | f in level && Outside(f, lo, hi) && g in Touching(level, lo, hi) ensures Newer(f, g) {
      EndsAreEntries(g);
      assert Misses(f, g.smallest.user, g.largest.user);
      MissingFilesAreNewer(f, g);
    }
  }

  /** Level 0: nothing is left for AddBoundaryInputs to add after a closed range. */
  lemma ClosedRangeHasNoBoundary(level: seq<File>, lo: Option<UserKey>, hi: Option<UserKey>, r: seq<File>)
    requires AllValid(level) && ClosedRange(level, lo, hi) && AllIn(r, level)
    requires Touching(level, lo, hi) <= r && Linked(r, |Touching(level, lo, hi)|) && NoDuplicates(r)
    ensures r == Touching(level, lo, hi)
  {
    var t := Touching(level, lo, hi);
    assert r[..|t|] == t;
    if |t| < |r| {
      NothingElseMeetsHull(level, lo, hi, r[|t|]);
    }
  }

  lemma NothingElseMeetsHull(level: seq<File>, lo: Option<UserKey>, hi: Option<UserKey>, f: File)
    requires ClosedRange(level, lo, hi) && f in level && MeetsHull(Touching(level, lo, hi), f)
    ensures f in Touching(level, lo, hi)
  {
    var t := Touching(level, lo, hi);
    var a :| a in t && a.smallest.user <= f.largest.user;
    var b :| b in t && f.smallest.user <= b.largest.user;
    assert Within(a, lo, hi) && Within(b, lo, hi);
  }

  // ------------------------------------------------- connectedness

  /** The files of the least closed range around a gapless set leave no gap. */
  lemma LeastClosureHasNoGap(level: seq<File>, s: seq<File>, begin: UserKey, end: UserKey,
                             lo: Option<UserKey>, hi: Option<UserKey>)
    requires AllValid(level) && NoGap(s) && LeastClosed(level, Some(begin), Some(end), lo, hi)
    requires lo.Some? && hi.Some?
    requires exists f :: f in s && f.smallest.user == begin
    requires exists f :: f in s && f.largest.user == end
    ensures NoGap(s + Touching(level, lo, hi))
  {
    var t := Touching(level, lo, hi);
    var r := s + t;
    var first :| first in s && first.smallest.user == begin;
    var last :| last in s && last.largest.user == end;
    forall x, y | x <= y && MissesAll(r, x, y) ensures AllBelow(r, x) || AllAbove(r, y) {
      assert MissesAll(s, x, y);
      if AllBelow(s, x) {
        var cut := Some(if hi.value < x then hi.value else x - 1);
        assert ClosedRange(level, lo, cut) by {
          forall f | f in level && !Outside(f, lo, cut) ensures Within(f, lo, cut) {
            assert f in t && f in r && Misses(f, x, y);
          }
        }
        assert Contains(lo, cut, Some(begin), Some(end));
        forall g | g in t ensures g.largest.user < x { assert Within(g, lo, hi); }
      } else {
        var cut := Some(if lo.value > y then lo.value else y + 1);
        assert ClosedRange(level, cut, hi) by {
          forall f | f in level && !Outside(f, cut, hi) ensures Within(f, cut, hi) {
            assert f in t && f in r && Misses(f, x, y);
          }
        }
        assert Contains(cut, hi, Some(begin), Some(end));
        forall g | g in t ensures y < g.smallest.user { assert Within(g, lo, hi); }
      }
    }
  }

  lemma TouchingMeetsHull(level: seq<File>, s: seq<File>, lo: InternalKey, hi: InternalKey)
    requires IsRange(s, lo, hi)
    ensures forall f :: f in Touching(level, Some(lo.user), Some(hi.user)) ==> MeetsHull(s, f)
  {
  }

  lemma RangeTouchesItself(level: seq<File>, s: seq<File>, lo: InternalKey, hi: InternalKey)
    requires IsRange(s, lo, hi) && AllValid(level)
    ensures forall f :: f in s && f in level ==> f in Touching(level, Some(lo.user), Some(hi.user))
  {
    forall f | f in s && f in level ensures !Outside(f, Some(lo.user), Some(hi.user)) { EndsAreEntries(f); }
  }

  // ------------------------------------------------- the level+1 side

  /** Files of level c+1 outside the touched range lie to one side of everything merged. */
  lemma UntouchedToOneSide(v: Version, c: nat, in0: seq<File>, lo: InternalKey, hi: InternalKey, f: File)
    requires VersionOk(v) && c + 1 < NUM_LEVELS && AllIn(in0, v[c]) && IsRange(in0, lo, hi)
    requires f in v[c + 1] && Outside(f, Some(lo.user), Some(hi.user))
    ensures OtherLevelClear(f, in0, Touching(v[c + 1], Some(lo.user), Some(hi.user)))
  {
    hide ValidFile, NumberOrder, LevelOrder, Touching;
    var in1 := Touching(v[c + 1], Some(lo.user), Some(hi.user));
    DisjointIsApart(v[c + 1]);
    EndsAreEntries(f);
    forall g | g in in0 + in1
      ensures f.largest.user < lo.user ==> Before(f, g)
      ensures f.smallest.user > hi.user ==> Before(g, f)
    {
      if g in in0 {
        EndsAreEntries(g);
      } else {
        EndsAreEntries(g);
        assert Before(f, g) || Before(g, f);
      }
    }
  }

  lemma InputsAreOk(v: Version, c: nat, in0: seq<File>, in1: seq<File>, lo: InternalKey, hi: InternalKey)
    requires VersionOk(v) && c + 1 < NUM_LEVELS && NoDuplicates(v[c + 1])
    requires in0 != [] && NoDuplicates(in0) && AllIn(in0, v[c]) && LeftoverNewer(v[c], in0)
    requires IsRange(in0, lo, hi) && in1 == Touching(v[c + 1], Some(lo.user), Some(hi.user))
    ensures InputsOk(v, c, in0, in1)
  {
    TouchingNoDuplicates(v[c + 1], Some(lo.user), Some(hi.user));
    forall f | f in v[c + 1] && f !in in1 ensures OtherLevelClear(f, in0, in1) {
      UntouchedToOneSide(v, c, in0, lo, hi, f);
    }
  }

  // ------------------------------------------------- the code

  function TotalSize(fs: seq<File>): nat {
    if fs == [] then 0 else TotalSize(fs[..|fs| - 1]) + fs[|fs| - 1].size
  }

  method TotalFileSize(fs: seq<File>) returns (sum: nat)
    ensures sum == TotalSize(fs)
  {
    sum := 0;
    for i := 0 to |fs|
      invariant sum == TotalSize(fs[..i])
    {
      assert fs[..i + 1][..i] == fs[..i];
      sum := sum + fs[i].size;
    }
    assert fs[..|fs|] == fs;
  }

  /** What a version offers to the picking code. */
  ghost predicate Pickable(v: Version, h: Log) {
    VersionOk(v) && AllWrittenBy(VersionEntries(v), h) &&
    forall l: nat :: l < NUM_LEVELS ==> SortedFiles(v[l])
  }

  lemma PickableLevel(v: Version, h: Log, l: nat)
    requires Pickable(v, h) && l < NUM_LEVELS
    ensures AllValid(v[l]) && NoDuplicates(v[l]) && AllWrittenBy(EntriesOf(v[l]), h)
    ensures l > 0 ==> Disjoint(v[l]) && PairwiseApart(v[l])
  {
    assert EntriesOf(v[l]) <= VersionEntries(v);
    if l > 0 { DisjointIsApart(v[l]); }
  }

  /** A starting set that SetupOtherInputs may be given: closed in level 0, nothing skipped elsewhere. */
  ghost predicate Startable(level: seq<File>, c: nat, fs: seq<File>) {
    fs != [] && NoDuplicates(fs) && AllIn(fs, level) &&
    if c == 0 then exists lo, hi :: ClosedRange(level, lo, hi) && fs == Touching(level, lo, hi)
    else Convex(level, fs)
  }

  /** GetOverlappingInputs followed by AddBoundaryInputs, or AddBoundaryInputs alone. */
  method CompleteLevel(v: Version, c: nat, fs: seq<File>, ghost h: Log) returns (r: seq<File>)
    requires Pickable(v, h) && c < NUM_LEVELS && Startable(v[c], c, fs)
    ensures fs <= r && NoDuplicates(r) && AllIn(r, v[c]) && LeftoverNewer(v[c], r) && Linked(r, |fs|)
    ensures Disjoint(fs) ==> Disjoint(r)
  {
    PickableLevel(v, h, c);
    r := AddBoundaryInputs(v[c], fs);
    if c == 0 {
      ghost var lo, hi :| ClosedRange(v[0], lo, hi) && fs == Touching(v[0], lo, hi);
      ClosedRangeHasNoBoundary(v[0], lo, hi, r);
      ClosedRangeLeavesNewer(v[0], lo, hi);
    } else {
      ConvexClosedLeavesNewer(v[c], r, h);
    }
  }

  lemma CompletedHasNoGap(r: seq<File>, n: nat)
    requires n <= |r| && Linked(r, n) && NoGap(r[..n])
    ensures NoGap(r)
  {
    NoGapOfSameFiles(r[..n], r[..n] + []);
    LinkedKeepsNoGap(r, n, []);
    NoGapOfSameFiles(r + [], r);
  }

  /** Whatever GetOverlappingInputs found, together with s, leaves no gap. */
  lemma OverlapHasNoGap(v: Version, c: nat, s: seq<File>, lo: InternalKey, hi: InternalKey,
                        t: seq<File>, lo': Option<UserKey>, hi': Option<UserKey>)
    requires c < NUM_LEVELS && AllValid(v[c]) && IsRange(s, lo, hi) && NoGap(s) && t == Touching(v[c], lo', hi')
    requires if c == 0 then LeastClosed(v[0], Some(lo.user), Some(hi.user), lo', hi') else lo' == Some(lo.user) && hi' == Some(hi.user)
    ensures NoGap(s + t)
  {
    hide NoGap, LeastClosed, MeetsHull;
    if c == 0 {
      WholeRangeIsClosed(v[0], lo.user, hi.user, lo', hi');
      LeastClosureHasNoGap(v[0], s, lo.user, hi.user, lo', hi');
    } else {
      TouchingMeetsHull(v[c], s, lo, hi);
      MeetingFilesKeepNoGap(s, t);
    }
  }

  /** It is a set to start from, with everything in the range. */
  lemma OverlapIsStart(v: Version, c: nat, s: seq<File>, in0: seq<File>, lo: InternalKey, hi: InternalKey,
                       t: seq<File>, lo': Option<UserKey>, hi': Option<UserKey>, h: Log)
    requires Pickable(v, h) && c < NUM_LEVELS && IsRange(s, lo, hi) && in0 != [] && AllIn(in0, s) && AllIn(in0, v[c])
    requires t == Touching(v[c], lo', hi') && Contains(lo', hi', Some(lo.user), Some(hi.user))
    requires if c == 0 then ClosedRange(v[0], lo', hi') else lo' == Some(lo.user) && hi' == Some(hi.user)
    ensures Startable(v[c], c, t) && AllIn(in0, t) && (c > 0 ==> Disjoint(t))
  {
    hide Pickable, Touching, ClosedRange, Convex, IsRange, Disjoint, PairwiseApart, AllWrittenBy;
    PickableLevel(v, h, c);
    TouchingNoDuplicates(v[c], lo', hi');
    RangeTouchesItself(v[c], s, lo, hi);
    forall f | f in in0 ensures f in t { assert f in Touching(v[c], Some(lo.user), Some(hi.user)); }
    assert in0[0] in t;
    if c > 0 {
      TouchingIsConvex(v[c], lo', hi');
      TouchingInOrder(v[c], lo', hi');
    }
  }

  lemma CompletedWithNoGap(r: seq<File>, t: seq<File>, s: seq<File>)
    requires t <= r && Linked(r, |t|) && NoGap(s + t)
    ensures NoGap(r + s)
  {
    hide NoGap, Linked;
    assert r[..|t|] == t;
    NoGapOfSameFiles(s + t, r[..|t|] + s);
    LinkedKeepsNoGap(r, |t|, s);
  }

  /** Everything of level c that overlaps the range of s, boundary files included. */
  method ExpandLevel(v: Version, c: nat, s: seq<File>, ghost in0: seq<File>, lo: InternalKey, hi: InternalKey, ghost h: Log)
    returns (r: seq<File>)
    requires Pickable(v, h) && c < NUM_LEVELS && IsRange(s, lo, hi)
    requires in0 != [] && AllIn(in0, s) && AllIn(in0, v[c])
    ensures NoDuplicates(r) && AllIn(r, v[c]) && LeftoverNewer(v[c], r) && AllIn(in0, r)
    ensures NoGap(s) ==> NoGap(r + s)
    ensures c > 0 ==> Disjoint(r)
  {
    hide Pickable, Touching, ClosedRange, Convex, IsRange, Disjoint, NoGap, Startable, NoDuplicates, LeftoverNewer, Linked;
    PickableLevel(v, h, c);
    var t, lo', hi' := GetOverlappingInputs(c, v[c], Some(lo.user), Some(hi.user));
    OverlapIsStart(v, c, s, in0, lo, hi, t, lo', hi', h);
    if NoGap(s) { OverlapHasNoGap(v, c, s, lo, hi, t, lo', hi'); }
    r := CompleteLevel(v, c, t, h);
    assert r[..|t|] == t;
    if NoGap(s) { CompletedWithNoGap(r, t, s); }
  }

  /** The least closed range around a bounded range is bounded. */
  lemma WholeRangeIsClosed(level: seq<File>, begin: UserKey, end: UserKey, lo: Option<UserKey>, hi: Option<UserKey>)
    requires AllValid(level) && LeastClosed(level, Some(begin), Some(end), lo, hi)
    ensures lo.Some? && hi.Some?
  {
    var a, b := Bounds(level, begin, end);
    assert ClosedRange(level, Some(a), Some(b));
  }

  lemma {:induction false} Bounds(level: seq<File>, begin: UserKey, end: UserKey) returns (a: UserKey, b: UserKey)
    ensures a <= begin && end <= b
    ensures forall f :: f in level ==> a <= f.smallest.user && f.largest.user <= b
  {
    if level == [] { return begin, end; }
    a, b := Bounds(level[1..], begin, end);
    var f := level[0];
    assert level == [f] + level[1..];
    if f.smallest.user < a { a := f.smallest.user; }
    if f.largest.user > b { b := f.largest.user; }
  }

  /** VersionSet::SetupOtherInputs. */
  method SetupOtherInputs(v: Version, c: nat, picked: seq<File>, sizeLimit: nat, ghost h: Log)
    returns (in0: seq<File>, in1: seq<File>)
    requires Pickable(v, h) && c + 1 < NUM_LEVELS && Startable(v[c], c, picked)
    ensures InputsOk(v, c, in0, in1) && AllIn(picked, in0)
    ensures NoGap(picked) ==> NoGap(in0 + in1)
    ensures Disjoint(in1) && (c > 0 && Disjoint(picked) ==> Disjoint(in0))
  {
    hide InputsOk, LeftoverNewer, LeastClosed, NoGap, Startable, IsRange, Linked, VersionOk, AllWrittenBy, SortedFiles, Disjoint;
    PickableLevel(v, h, c);
    PickableLevel(v, h, c + 1);
    in0 := CompleteLevel(v, c, picked, h);
    StillStarted(v[c], c, picked, in0);
    var smallest, largest := GetRange(in0);
    var below, _, _ := GetOverlappingInputs(c + 1, v[c + 1], Some(smallest.user), Some(largest.user));
    in1 := below;
    TouchingInOrder(v[c + 1], Some(smallest.user), Some(largest.user));
    InputsAreOk(v, c, in0, in1, smallest, largest);
    if NoGap(picked) { ChosenHaveNoGap(v[c + 1], picked, in0, in1, smallest, largest); }
    var allStart, allLimit := GetRange(in0 + in1);
    if in1 != [] {
      var expanded0 := ExpandLevel(v, c, in0 + in1, in0, allStart, allLimit, h);
      var inputs1Size := TotalFileSize(in1);
      var expanded0Size := TotalFileSize(expanded0);
      if |expanded0| > |in0| && inputs1Size + expanded0Size < sizeLimit {
        var newStart, newLimit := GetRange(expanded0);
        var expanded1, _, _ := GetOverlappingInputs(c + 1, v[c + 1], Some(newStart.user), Some(newLimit.user));
        if |expanded1| == |in1| {
          TouchingInOrder(v[c + 1], Some(newStart.user), Some(newLimit.user));
          InputsAreOk(v, c, expanded0, expanded1, newStart, newLimit);
          if NoGap(picked) {
            ExpandedHaveNoGap(v[c + 1], in0, in1, expanded0, expanded1, smallest, largest, newStart, newLimit);
          }
          in0, in1 := expanded0, expanded1;
        }
      }
    }
  }

  lemma StillStarted(level: seq<File>, c: nat, picked: seq<File>, r: seq<File>)
    requires Startable(level, c, picked) && picked <= r
    ensures r != [] && AllIn(picked, r)
  {
    assert r[..|picked|] == picked;
  }

  /** The completed starting set and the files of the next level that touch its range. */
  lemma ChosenHaveNoGap(below: seq<File>, picked: seq<File>, in0: seq<File>, in1: seq<File>, lo: InternalKey, hi: InternalKey)
    requires NoGap(picked) && picked <= in0 && Linked(in0, |picked|) && IsRange(in0, lo, hi)
    requires in1 == Touching(below, Some(lo.user), Some(hi.user))
    ensures NoGap(in0 + in1)
  {
    hide NoGap, Touching, MeetsHull, Linked;
    TouchingMeetsHull(below, in0, lo, hi);
    assert in0[..|picked|] == picked;
    CompletedHasNoGap(in0, |picked|);
    MeetingFilesKeepNoGap(in0, in1);
  }

  /** The expanded sets cover one interval too: they take in everything chosen before. */
  lemma ExpandedHaveNoGap(below: seq<File>, in0: seq<File>, in1: seq<File>, expanded0: seq<File>, expanded1: seq<File>,
                          lo: InternalKey, hi: InternalKey, lo': InternalKey, hi': InternalKey)
    requires NoGap(expanded0 + (in0 + in1)) && AllIn(in0, expanded0)
    requires IsRange(in0, lo, hi) && in1 == Touching(below, Some(lo.user), Some(hi.user))
    requires IsRange(expanded0, lo', hi') && expanded1 == Touching(below, Some(lo'.user), Some(hi'.user))
    ensures NoGap(expanded0 + expanded1)
  {
    hide NoGap, Touching, IsRange;
    WiderRangeTouchesMore(below, in0, expanded0, lo, hi, lo', hi');
    TouchingMeetsHull(below, expanded0, lo', hi');
    var all := expanded0 + (in0 + in1);
    forall f | f in expanded1 ensures MeetsHull(all, f) {
      assert MeetsHull(expanded0, f);
      assert forall g :: g in expanded0 ==> g in all;
    }
    MeetingFilesKeepNoGap(all, expanded1);
    NoGapOfSameFiles(all + expanded1, expanded0 + expanded1);
  }

  lemma WiderRangeTouchesMore(level: seq<File>, a: seq<File>, b: seq<File>, alo: InternalKey, ahi: InternalKey,
                              blo: InternalKey, bhi: InternalKey)
    requires IsRange(a, alo, ahi) && IsRange(b, blo, bhi) && AllIn(a, b)
    ensures AllIn(Touching(level, Some(alo.user), Some(ahi.user)), Touching(level, Some(blo.user), Some(bhi.user)))
  {
    hide Touching, Less;
    var f :| f in a && f.smallest == alo;
    var g :| g in a && g.largest == ahi;
    assert f in b && g in b;
    UserAtMost(blo, alo);
    UserAtMost(ahi, bhi);
    forall x | x in Touching(level, Some(alo.user), Some(ahi.user)) ensures !Outside(x, Some(blo.user), Some(bhi.user)) {
    }
  }

  lemma UserAtMost(a: InternalKey, b: InternalKey)
    requires AtMost(a, b)
    ensures a.user <= b.user
  {
  }

  /** f ends after the key where the last compaction of its level ended. */
  predicate PastPointer(f: File, pointer: Option<InternalKey>) {
    pointer.None? || Less(pointer.value, f.largest)
  }

  /** The first file that comes after the pointer, or the first of all. With the pointer where compacting
      one file of a disjoint level leaves it, that is the file after it, so every file has its turn. */
  method PickFile(files: seq<File>, pointer: Option<InternalKey>) returns (f: File, ghost at: nat)
    requires files != []
    ensures at < |files| && f == files[at]
    ensures (forall i :: 0 <= i < |files| ==> !PastPointer(files[i], pointer)) ==> at == 0
    ensures forall i :: 0 <= i < |files| && PastPointer(files[i], pointer) ==> PastPointer(f, pointer) && at <= i
    ensures AllValid(files) && Disjoint(files) ==>
      forall i :: 0 <= i < |files| && pointer == Some(files[i].largest) ==> at == if i + 1 < |files| then i + 1 else 0
  {
    f, at := files[0], 0;
    for i := 0 to |files|
      invariant f == files[0] && at == 0 && forall j :: 0 <= j < i ==> !PastPointer(files[j], pointer)
    {
      if PastPointer(files[i], pointer) {
        f, at := files[i], i;
        NextInTurn(files, pointer, i);
        return;
      }
    }
    NextInTurn(files, pointer, |files|);
  }

  lemma NextInTurn(files: seq<File>, pointer: Option<InternalKey>, n: nat)
    requires n <= |files| && forall j :: 0 <= j < n ==> !PastPointer(files[j], pointer)
    requires n < |files| ==> PastPointer(files[n], pointer)
    ensures AllValid(files) && Disjoint(files) ==> forall k :: 0 <= k < |files| && pointer == Some(files[k].largest) ==> n == k + 1
  {
    hide Less, ValidFile, Before;
    if AllValid(files) && Disjoint(files) {
      LargestAscend(files);
      forall k | 0 <= k < |files| && pointer == Some(files[k].largest) ensures n == k + 1 {
        assert k + 1 < |files| ==> PastPointer(files[k + 1], pointer);
      }
    }
  }

  lemma LargestAscend(files: seq<File>)
    requires AllValid(files) && Disjoint(files)
    ensures forall i, j :: 0 <= i < |files| && 0 <= j < |files| ==> (Less(files[i].largest, files[j].largest) <==> i < j)
  {
    hide Less, ValidFile;
    forall i, j | 0 <= i < |files| && 0 <= j < |files| ensures Less(files[i].largest, files[j].largest) <==> i < j {
      assert files[i] in files && files[j] in files;
      if i < j { EndsAscend(files[i], files[j]); }
      if j < i { EndsAscend(files[j], files[i]); }
      OrderIsTotal(files[i].largest, files[j].largest);
    }
  }

  lemma EndsAscend(f: File, g: File)
    requires ValidFile(f) && ValidFile(g) && Before(f, g)
    ensures Less(f.largest, g.largest) && !Less(g.largest, f.largest)
  {
    EndsAreEntries(g);
  }

  /** How PickCompaction starts: a level with too much data comes before a file with too many seeks. */
  method PickStart(v: Version, tooLarge: Option<nat>, pointers: seq<Option<InternalKey>>, toCompact: Option<(nat, File)>)
    returns (level: nat, f: Option<File>)
    requires |pointers| == NUM_LEVELS && (tooLarge.Some? ==> tooLarge.value + 1 < NUM_LEVELS && v[tooLarge.value] != [])
    requires toCompact.Some? ==> toCompact.value.0 < NUM_LEVELS && toCompact.value.1 in v[toCompact.value.0]
    ensures f.None? <==> tooLarge.None? && toCompact.None?
    ensures f.Some? ==> level < NUM_LEVELS && f.value in v[level]
    ensures tooLarge.Some? ==> level == tooLarge.value && forall g :: g in v[level] && PastPointer(g, pointers[level]) ==> PastPointer(f.value, pointers[level])
    ensures tooLarge.None? && toCompact.Some? ==> (level, f.value) == toCompact.value
  {
    if tooLarge.Some? {
      level := tooLarge.value;
      var file; ghost var at;
      file, at := PickFile(v[level], pointers[level]);
      f := Some(file);
    } else if toCompact.Some? {
      level, f := toCompact.value.0, Some(toCompact.value.1);
    } else {
      level, f := 0, None;
    }
  }

  /** VersionSet::PickCompaction from the file it settles on, whatever made it choose that file.
      The inputs cover one connected user-key interval. */
  method PickCompaction(v: Version, c: nat, f: File, sizeLimit: nat, ghost h: Log)
    returns (in0: seq<File>, in1: seq<File>)
    requires Pickable(v, h) && c + 1 < NUM_LEVELS && f in v[c]
    ensures InputsOk(v, c, in0, in1) && f in in0
    ensures NoGap(in0 + in1) && Disjoint(in1) && (c > 0 ==> Disjoint(in0))
  {
    PickableLevel(v, h, c);
    var picked := [f];
    SingleFileHasNoGap(f);
    if c == 0 {
      var smallest, largest := GetRange(picked);
      ghost var lo, hi;
      picked, lo, hi := GetOverlappingInputs(0, v[0], Some(smallest.user), Some(largest.user));
      WholeRangeIsClosed(v[0], smallest.user, largest.user, lo, hi);
      EndsAreEntries(f);
      assert f in picked;
      TouchingNoDuplicates(v[0], lo, hi);
      LeastClosureHasNoGap(v[0], [f], smallest.user, largest.user, lo, hi);
      NoGapOfSameFiles([f] + picked, picked);
    } else {
      SingleIsConvex(v[c], f);
    }
    assert f in picked;
    in0, in1 := SetupOtherInputs(v, c, picked, sizeLimit, h);
  }

  lemma SingleIsConvex(level: seq<File>, f: File)
    requires AllValid(level) && f in level
    ensures Convex(level, [f])
  {
    forall x | x in level ensures !(Before(f, x) && Before(x, f)) {
      EndsAreEntries(x);
      EndsAreEntries(f);
    }
  }

  // ------------------------------------------------- placing a flushed memtable

  /** Level 0, or a level of at most 2 such that no file at or above it shares a user key range. */
  ghost predicate FlushLevelOk(v: Version, lo: UserKey, hi: UserKey, level: nat) {
    level <= MAX_MEM_COMPACT_LEVEL &&
    (level > 0 ==> forall l: nat :: l <= level ==> MissesAll(v[l], lo, hi))
  }

  ghost predicate Searchable(v: Version) {
    forall l: nat :: l < NUM_LEVELS ==> AllValid(v[l]) && (l > 0 ==> Disjoint(v[l]))
  }

  /** Whether [lo, hi] meets some file of the level. */
  method OverlapInLevel(v: Version, l: nat, lo: UserKey, hi: UserKey) returns (r: bool)
    requires Searchable(v) && l < NUM_LEVELS
    ensures !r <==> MissesAll(v[l], lo, hi)
  {
    r := SomeFileOverlapsRange(l > 0, v[l], Some(lo), Some(hi));
  }

  /** Going one level deeper is refused: overlap there, or too much data below. */
  ghost predicate Blocked(v: Version, lo: UserKey, hi: UserKey, level: nat, maxGrandParentBytes: nat)
    requires level + 2 < NUM_LEVELS
  {
    !MissesAll(v[level + 1], lo, hi) || TotalSize(Touching(v[level + 2], Some(lo), Some(hi))) > maxGrandParentBytes
  }

  lemma NotBlocked(v: Version, lo: UserKey, hi: UserKey, level: nat, maxGrandParentBytes: nat)
    requires level + 2 < NUM_LEVELS && !Blocked(v, lo, hi, level, maxGrandParentBytes)
    ensures MissesAll(v[level + 1], lo, hi)
  {
  }

  /** The level is open to a flush, and the deepest before one that is blocked. */
  ghost predicate DeepestOpen(v: Version, lo: UserKey, hi: UserKey, level: nat, maxGrandParentBytes: nat) {
    FlushLevelOk(v, lo, hi, level) &&
    (forall l: nat :: l < level ==> !Blocked(v, lo, hi, l, maxGrandParentBytes)) &&
    (level == MAX_MEM_COMPACT_LEVEL || (level == 0 && !MissesAll(v[0], lo, hi)) || Blocked(v, lo, hi, level, maxGrandParentBytes))
  }

  method DescentBlocked(v: Version, lo: UserKey, hi: UserKey, level: nat, maxGrandParentBytes: nat) returns (r: bool)
    requires Searchable(v) && level + 2 < NUM_LEVELS
    ensures r <==> Blocked(v, lo, hi, level, maxGrandParentBytes)
  {
    r := OverlapInLevel(v, level + 1, lo, hi);
    if !r {
      var overlaps, _, _ := GetOverlappingInputs(level + 2, v[level + 2], Some(lo), Some(hi));
      var sum := TotalFileSize(overlaps);
      r := sum > maxGrandParentBytes;
    }
  }

  /** Version::PickLevelForMemTableOutput: the deepest level it may descend to, one at a time. */
  method PickLevelForMemTableOutput(v: Version, lo: UserKey, hi: UserKey, maxGrandParentBytes: nat)
    returns (level: nat)
    requires Searchable(v)
    ensures DeepestOpen(v, lo, hi, level, maxGrandParentBytes)
  {
    hide Searchable, MissesAll, Blocked;
    level := 0;
    var blocked := OverlapInLevel(v, 0, lo, hi);
    while level < MAX_MEM_COMPACT_LEVEL && !blocked
      invariant level <= MAX_MEM_COMPACT_LEVEL
      invariant blocked ==> (level == 0 && !MissesAll(v[0], lo, hi)) || Blocked(v, lo, hi, level, maxGrandParentBytes)
      invariant level > 0 || !blocked ==> forall l: nat :: l <= level ==> MissesAll(v[l], lo, hi)
      invariant forall l: nat :: l < level ==> !Blocked(v, lo, hi, l, maxGrandParentBytes)
      decreases MAX_MEM_COMPACT_LEVEL - level, !blocked
    {
      blocked := DescentBlocked(v, lo, hi, level, maxGrandParentBytes);
      if !blocked {
        NotBlocked(v, lo, hi, level, maxGrandParentBytes);
        level := level + 1;
      }
    }
  }
}
