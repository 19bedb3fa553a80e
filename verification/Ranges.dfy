/** Choosing the files a range touches: overlap closure in level 0, boundary files. */
module Ranges {
  import opened Keys
  import opened Files

  /** f has no user key in [lo, hi]; a missing bound is unbounded. */
  predicate Outside(f: File, lo: Option<UserKey>, hi: Option<UserKey>) {
    (lo.Some? && f.largest.user < lo.value) || (hi.Some? && f.smallest.user > hi.value)
  }

  function Touching(fs: seq<File>, lo: Option<UserKey>, hi: Option<UserKey>): (r: seq<File>)
    ensures forall f :: f in r <==> f in fs && !Outside(f, lo, hi)
  {
    if fs == [] then []
    else Touching(fs[..|fs| - 1], lo, hi) + (if Outside(fs[|fs| - 1], lo, hi) then [] else [fs[|fs| - 1]])
  }

  /** The range [a, b] contains the range [lo, hi]. */
  predicate Contains(a: Option<UserKey>, b: Option<UserKey>, lo: Option<UserKey>, hi: Option<UserKey>) {
    (a.None? || (lo.Some? && a.value <= lo.value)) && (b.None? || (hi.Some? && hi.value <= b.value))
  }

  predicate Within(f: File, lo: Option<UserKey>, hi: Option<UserKey>) {
    (lo.Some? ==> lo.value <= f.smallest.user) && (hi.Some? ==> f.largest.user <= hi.value)
  }

  /** Every file that touches the range lies inside it. */
  ghost predicate ClosedRange(fs: seq<File>, lo: Option<UserKey>, hi: Option<UserKey>) {
    forall f :: f in fs && !Outside(f, lo, hi) ==> Within(f, lo, hi)
  }

  /** Every closed range around [begin, end] is also around [lo, hi]. */
  ghost predicate BelowClosed(fs: seq<File>, begin: Option<UserKey>, end: Option<UserKey>,
                              lo: Option<UserKey>, hi: Option<UserKey>) {
    forall a, b :: ClosedRange(fs, a, b) && Contains(a, b, begin, end) ==> Contains(a, b, lo, hi)
  }

  /** [lo, hi] is the least closed range around [begin, end]. */
  ghost predicate LeastClosed(fs: seq<File>, begin: Option<UserKey>, end: Option<UserKey>,
                              lo: Option<UserKey>, hi: Option<UserKey>) {
    Contains(lo, hi, begin, end) && ClosedRange(fs, lo, hi) && BelowClosed(fs, begin, end, lo, hi)
  }

  lemma WideningStaysBelow(fs: seq<File>, begin: Option<UserKey>, end: Option<UserKey>,
                           lo: Option<UserKey>, hi: Option<UserKey>, f: File)
    requires f in fs && ValidFile(f) && !Outside(f, lo, hi) && BelowClosed(fs, begin, end, lo, hi)
    ensures BelowClosed(fs, begin, end, if lo.Some? then Some(f.smallest.user) else lo, hi)
    ensures BelowClosed(fs, begin, end, lo, if hi.Some? then Some(f.largest.user) else hi)
  {
    EndsAreEntries(f);
    forall a, b | ClosedRange(fs, a, b) && Contains(a, b, begin, end) ensures Within(f, a, b) {
      assert Contains(a, b, lo, hi);
      assert !Outside(f, a, b);
    }
  }

  /** How many files start before lo: what each widening of the lower bound uses up. */
  ghost function StartingBelow(fs: seq<File>, lo: Option<UserKey>): nat {
    if fs == [] then 0
    else StartingBelow(fs[1..], lo) + (if lo.Some? && fs[0].smallest.user < lo.value then 1 else 0)
  }

  ghost function EndingAbove(fs: seq<File>, hi: Option<UserKey>): nat {
    if fs == [] then 0
    else EndingAbove(fs[1..], hi) + (if hi.Some? && fs[0].largest.user > hi.value then 1 else 0)
  }

  lemma {:induction false} WideningLowers(fs: seq<File>, f: File, lo: UserKey)
    requires f.smallest.user < lo
    ensures StartingBelow(fs, Some(f.smallest.user)) <= StartingBelow(fs, Some(lo))
    ensures f in fs ==> StartingBelow(fs, Some(f.smallest.user)) < StartingBelow(fs, Some(lo))
  {
    if fs != [] { WideningLowers(fs[1..], f, lo); }
  }

  lemma {:induction false} WideningRaises(fs: seq<File>, f: File, hi: UserKey)
    requires f.largest.user > hi
    ensures EndingAbove(fs, Some(f.largest.user)) <= EndingAbove(fs, Some(hi))
    ensures f in fs ==> EndingAbove(fs, Some(f.largest.user)) < EndingAbove(fs, Some(hi))
  {
    if fs != [] { WideningRaises(fs[1..], f, hi); }
  }

  lemma OneMoreFile(fs: seq<File>, i: nat, lo: Option<UserKey>, hi: Option<UserKey>)
    requires i < |fs|
    ensures fs[i] in fs
    ensures Touching(fs[..i + 1], lo, hi) == Touching(fs[..i], lo, hi) + (if Outside(fs[i], lo, hi) then [] else [fs[i]])
    ensures ClosedRange(fs[..i], lo, hi) && (Outside(fs[i], lo, hi) || Within(fs[i], lo, hi)) ==>
      ClosedRange(fs[..i + 1], lo, hi)
  {
    assert fs[..i + 1][..i] == fs[..i] && fs[..i + 1] == fs[..i] + [fs[i]];
  }

  lemma NothingTouched(fs: seq<File>, lo: Option<UserKey>, hi: Option<UserKey>)
    ensures Touching(fs[..0], lo, hi) == [] && ClosedRange(fs[..0], lo, hi) && BelowClosed(fs, lo, hi, lo, hi)
  {
  }

  /** Version::GetOverlappingInputs. In level 0 every file that sticks out of the range widens
      it and restarts the scan; the result is the set of files touching the least closed range. */
  method GetOverlappingInputs(level: nat, fs: seq<File>, begin: Option<UserKey>, end: Option<UserKey>)
    returns (inputs: seq<File>, ghost lo: Option<UserKey>, ghost hi: Option<UserKey>)
    requires AllValid(fs)
    ensures inputs == Touching(fs, lo, hi) && (level != 0 ==> inputs == Touching(fs, begin, end))
    ensures if level == 0 then LeastClosed(fs, begin, end, lo, hi) else lo == begin && hi == end
    ensures Contains(lo, hi, begin, end)
  {
    hide Touching, ClosedRange, BelowClosed, StartingBelow, EndingAbove, ValidFile, Less;
    inputs := [];
    var userBegin, userEnd := begin, end;
    NothingTouched(fs, begin, end);
    var i := 0;
    while i < |fs|
      invariant i <= |fs| && inputs == Touching(fs[..i], userBegin, userEnd)
      invariant Contains(userBegin, userEnd, begin, end)
      invariant level != 0 ==> userBegin == begin && userEnd == end
      invariant level == 0 ==> ClosedRange(fs[..i], userBegin, userEnd)
      invariant BelowClosed(fs, begin, end, userBegin, userEnd)
      decreases StartingBelow(fs, userBegin), EndingAbove(fs, userEnd), |fs| - i
    {
      var f := fs[i];
      OneMoreFile(fs, i, userBegin, userEnd);
      i := i + 1;
      if userBegin.Some? && f.largest.user < userBegin.value {
      } else if userEnd.Some? && f.smallest.user > userEnd.value {
      } else {
        inputs := inputs + [f];
        if level == 0 {
          WideningStaysBelow(fs, begin, end, userBegin, userEnd, f);
          if userBegin.Some? && f.smallest.user < userBegin.value {
            WideningLowers(fs, f, userBegin.value);
            userBegin := Some(f.smallest.user);
            NothingTouched(fs, userBegin, userEnd);
            inputs := [];
            i := 0;
          } else if userEnd.Some? && f.largest.user > userEnd.value {
            WideningRaises(fs, f, userEnd.value);
            userEnd := Some(f.largest.user);
            NothingTouched(fs, userBegin, userEnd);
            inputs := [];
            i := 0;
          }
        }
      }
    }
    assert fs[..|fs|] == fs;
    lo, hi := userBegin, userEnd;
  }

  // ---------------------------------------------------------------- gaps

  ghost predicate MissesAll(fs: seq<File>, x: UserKey, y: UserKey) {
    forall g :: g in fs ==> Misses(g, x, y)
  }

  ghost predicate AllBelow(fs: seq<File>, x: UserKey) {
    forall g :: g in fs ==> g.largest.user < x
  }

  ghost predicate AllAbove(fs: seq<File>, y: UserKey) {
    forall g :: g in fs ==> y < g.smallest.user
  }

  /** The files cover one unbroken user-key interval: a range that misses every file lies
      wholly to one side of all of them. */
  ghost predicate NoGap(fs: seq<File>) {
    forall x, y :: x <= y && MissesAll(fs, x, y) ==> AllBelow(fs, x) || AllAbove(fs, y)
  }

  /** f meets the interval from the first start to the last end of fs. */
  ghost predicate MeetsHull(fs: seq<File>, f: File) {
    (exists g :: g in fs && g.smallest.user <= f.largest.user) &&
    (exists g :: g in fs && f.smallest.user <= g.largest.user)
  }

  lemma SingleFileHasNoGap(f: File)
    ensures NoGap([f])
  {
    assert f in [f];
  }

  /** Files that meet the covered interval leave no gap when they are added. */
  lemma MeetingFilesKeepNoGap(fs: seq<File>, more: seq<File>)
    requires NoGap(fs)
    requires forall f :: f in more ==> MeetsHull(fs, f)
    ensures NoGap(fs + more)
  {
    forall x, y | x <= y && MissesAll(fs + more, x, y) ensures AllBelow(fs + more, x) || AllAbove(fs + more, y) {
      assert forall g :: g in fs || g in more ==> g in fs + more;
      assert MissesAll(fs, x, y);
      if AllBelow(fs, x) {
        forall f | f in more ensures f.largest.user < x {
          assert MeetsHull(fs, f);
          assert f in fs + more && Misses(f, x, y);
        }
      } else {
        forall f | f in more ensures y < f.smallest.user {
          assert MeetsHull(fs, f);
          assert f in fs + more && Misses(f, x, y);
        }
      }
    }
  }

  lemma NoGapOfSameFiles(a: seq<File>, b: seq<File>)
    requires NoGap(a) && forall f :: f in a <==> f in b
    ensures NoGap(b)
  {
    forall x, y | x <= y && MissesAll(b, x, y) ensures AllBelow(b, x) || AllAbove(b, y) {
      assert MissesAll(a, x, y);
    }
  }

  // ---------------------------------------------------------------- ranges of file sets

  ghost predicate IsRange(fs: seq<File>, lo: InternalKey, hi: InternalKey) {
    (exists f :: f in fs && f.smallest == lo) && (exists f :: f in fs && f.largest == hi) &&
    forall f :: f in fs ==> AtMost(lo, f.smallest) && AtMost(f.largest, hi)
  }

  /** VersionSet::GetRange. */
  method GetRange(inputs: seq<File>) returns (smallest: InternalKey, largest: InternalKey)
    requires inputs != []
    ensures IsRange(inputs, smallest, largest)
  {
    smallest, largest := inputs[0].smallest, inputs[0].largest;
    for i := 1 to |inputs|
      invariant exists k :: 0 <= k < i && inputs[k].smallest == smallest
      invariant exists k :: 0 <= k < i && inputs[k].largest == largest
      invariant forall k :: 0 <= k < i ==> AtMost(smallest, inputs[k].smallest) && AtMost(inputs[k].largest, largest)
    {
      var f := inputs[i];
      OrderIsTotal(f.smallest, smallest);
      OrderIsTotal(f.largest, largest);
      if Less(f.smallest, smallest) { smallest := f.smallest; }
      if Less(largest, f.largest) { largest := f.largest; }
    }
  }

  // ---------------------------------------------------------------- boundary files

  /** f starts after key k, at the same user key. */
  predicate BoundaryAfter(f: File, k: InternalKey) {
    Less(k, f.smallest) && f.smallest.user == k.user
  }

  /** FindSmallestBoundaryFile. */
  method FindSmallestBoundaryFile(levelFiles: seq<File>, k: InternalKey) returns (r: Option<File>)
    ensures r.None? <==> forall f :: f in levelFiles ==> !BoundaryAfter(f, k)
    ensures r.Some? ==> r.value in levelFiles && BoundaryAfter(r.value, k)
    ensures r.Some? ==> forall f :: f in levelFiles && BoundaryAfter(f, k) ==> AtMost(r.value.smallest, f.smallest)
  {
    r := None;
    for i := 0 to |levelFiles|
      invariant r.None? <==> forall j :: 0 <= j < i ==> !BoundaryAfter(levelFiles[j], k)
      invariant r.Some? ==> r.value in levelFiles && BoundaryAfter(r.value, k)
      invariant r.Some? ==> forall j :: 0 <= j < i && BoundaryAfter(levelFiles[j], k) ==> AtMost(r.value.smallest, levelFiles[j].smallest)
    {
      var f := levelFiles[i];
      if BoundaryAfter(f, k) {
        if r.None? || Less(f.smallest, r.value.smallest) {
          forall j | 0 <= j < i && BoundaryAfter(levelFiles[j], k) ensures AtMost(f.smallest, levelFiles[j].smallest) {
          }
          r := Some(f);
        } else {
          OrderIsTotal(f.smallest, r.value.smallest);
        }
      }
    }
  }

  ghost predicate IsLargest(fs: seq<File>, k: InternalKey) {
    (exists f :: f in fs && f.largest == k) && forall f :: f in fs ==> AtMost(f.largest, k)
  }

  /** No level file starts after the largest key of inputs at the same user key. */
  ghost predicate BoundaryClosed(levelFiles: seq<File>, inputs: seq<File>) {
    forall k :: IsLargest(inputs, k) ==> forall f :: f in levelFiles ==> !BoundaryAfter(f, k)
  }

  ghost function StartingAfter(fs: seq<File>, k: InternalKey): nat {
    if fs == [] then 0 else StartingAfter(fs[1..], k) + (if Less(k, fs[0].smallest) then 1 else 0)
  }

  lemma {:induction false} LargerKeyLeavesFewer(fs: seq<File>, f: File, k: InternalKey)
    requires ValidFile(f) && Less(k, f.smallest)
    ensures StartingAfter(fs, f.largest) <= StartingAfter(fs, k)
    ensures f in fs ==> StartingAfter(fs, f.largest) < StartingAfter(fs, k)
  {
    EndsAreEntries(f);
    if fs != [] { LargerKeyLeavesFewer(fs[1..], f, k); }
  }

  /** A file list with nothing skipped: a level file between two chosen ones is chosen. */
  ghost predicate Convex(levelFiles: seq<File>, fs: seq<File>) {
    forall f, g, h :: f in levelFiles && g in fs && h in fs && Before(g, f) && Before(f, h) ==> f in fs
  }

  ghost predicate AllIn(fs: seq<File>, level: seq<File>) {
    forall f :: f in fs ==> f in level
  }

  /** No file lies after b and before a file that ends before b. */
  lemma NoneBeyond(b: File, f: File, h: File, k: InternalKey)
    requires AtMost(b.smallest, b.largest) && AtMost(f.smallest, f.largest) && AtMost(h.smallest, h.largest)
    requires AtMost(h.largest, k) && Less(k, b.smallest)
    ensures !(Before(b, f) && Before(f, h))
  {
  }

  /** A file between the largest key and the boundary file would itself be the boundary file. */
  lemma NoneBetween(f: File, k: InternalKey, b: File)
    requires AtMost(f.smallest, f.largest) && BoundaryAfter(b, k) && (BoundaryAfter(f, k) ==> AtMost(b.smallest, f.smallest))
    ensures !(Less(k, f.smallest) && Before(f, b))
  {
  }

  lemma BoundaryKeepsConvex(levelFiles: seq<File>, fs: seq<File>, k: InternalKey, b: File)
    requires AllValid(levelFiles) && PairwiseApart(levelFiles) && AllIn(fs, levelFiles)
    requires Convex(levelFiles, fs) && IsLargest(fs, k)
    requires b in levelFiles && BoundaryAfter(b, k)
    requires forall f :: f in levelFiles && BoundaryAfter(f, k) ==> AtMost(b.smallest, f.smallest)
    ensures Convex(levelFiles, fs + [b])
  {
    hide ValidFile, Less, AtMost;
    EndsAreEntries(b);
    assert Less(k, b.smallest);
    var m :| m in fs && m.largest == k;
    forall f, g, h | f in levelFiles && g in fs + [b] && h in fs + [b] && Before(g, f) && Before(f, h)
      ensures f in fs + [b]
    {
      EndsAreEntries(f);
      if h in fs {
        EndsAreEntries(h);
        NoneBeyond(b, f, h, k);
      } else if g in fs && f != m {
        NoneBetween(f, k, b);
        assert Before(f, m) || Before(m, f);
      } else if g !in fs {
        NotBeforeItself(b, f);
      }
    }
  }

  lemma NotBeforeItself(b: File, f: File)
    requires AtMost(b.smallest, b.largest) && AtMost(f.smallest, f.largest)
    ensures !(Before(b, f) && Before(f, b))
  {
  }

  ghost predicate NoDuplicates(fs: seq<File>) {
    forall i, j :: 0 <= i < j < |fs| ==> fs[i] != fs[j]
  }

  lemma {:induction false} TouchingNoDuplicates(fs: seq<File>, lo: Option<UserKey>, hi: Option<UserKey>)
    requires NoDuplicates(fs)
    ensures NoDuplicates(Touching(fs, lo, hi))
  {
    if fs != [] {
      var init := fs[..|fs| - 1];
      TouchingNoDuplicates(init, lo, hi);
      forall i | 0 <= i < |Touching(init, lo, hi)| ensures Touching(init, lo, hi)[i] != fs[|fs| - 1] {
        assert Touching(init, lo, hi)[i] in init;
      }
    }
  }

  lemma {:induction false} TouchingInOrder(fs: seq<File>, lo: Option<UserKey>, hi: Option<UserKey>)
    requires Disjoint(fs)
    ensures Disjoint(Touching(fs, lo, hi))
  {
    hide Before;
    if fs != [] {
      var n := |fs| - 1;
      TouchingInOrder(fs[..n], lo, hi);
      var t := Touching(fs[..n], lo, hi);
      forall i | 0 <= i < |t| ensures Before(t[i], fs[n]) {
        assert t[i] in fs[..n];
        var j :| 0 <= j < n && fs[j] == t[i];
      }
    }
  }

  /** A boundary file comes after all files it is added to. */
  lemma BoundaryInOrder(fs: seq<File>, k: InternalKey, b: File)
    requires Disjoint(fs) && IsLargest(fs, k) && BoundaryAfter(b, k)
    ensures Disjoint(fs + [b])
  {
    var r := fs + [b];
    forall i, j | 0 <= i < j < |r| ensures Before(r[i], r[j]) {
      if j == |fs| { assert fs[i] in fs && AtMost(fs[i].largest, k); }
    }
  }

  /** From index n on, each file meets the interval of the files before it. */
  ghost predicate Linked(fs: seq<File>, n: nat) {
    forall i :: n <= i < |fs| ==> MeetsHull(fs[..i], fs[i])
  }

  lemma LinkedFileMeets(fs: seq<File>, n: nat, a: seq<File>)
    requires n < |fs| && Linked(fs, n) && fs[..n] <= a
    ensures MeetsHull(a, fs[n])
  {
    assert MeetsHull(fs[..n], fs[n]);
    assert forall g :: g in fs[..n] ==> g in a by { assert a[..|fs[..n]|] == fs[..n]; }
  }

  lemma {:induction false} LinkedKeepsNoGap(fs: seq<File>, n: nat, others: seq<File>)
    requires n <= |fs| && Linked(fs, n) && NoGap(fs[..n] + others)
    ensures NoGap(fs + others)
    decreases |fs| - n
  {
    hide NoGap, MeetsHull;
    if n == |fs| {
      assert fs[..n] == fs;
    } else {
      var a := fs[..n] + others;
      LinkedFileMeets(fs, n, a);
      MeetingFilesKeepNoGap(a, [fs[n]]);
      assert fs[..n + 1] == fs[..n] + [fs[n]];
      NoGapOfSameFiles(a + [fs[n]], fs[..n + 1] + others);
      LinkedKeepsNoGap(fs, n + 1, others);
    }
  }

  /** AddBoundaryInputs: files that continue the largest user key are added one by one. */
  method AddBoundaryInputs(levelFiles: seq<File>, inputs: seq<File>) returns (r: seq<File>)
    requires AllValid(levelFiles) && AllIn(inputs, levelFiles)
    ensures inputs <= r && AllIn(r, levelFiles)
    ensures BoundaryClosed(levelFiles, r)
    ensures Linked(r, |inputs|) && (NoDuplicates(inputs) ==> NoDuplicates(r))
    ensures PairwiseApart(levelFiles) && Convex(levelFiles, inputs) ==> Convex(levelFiles, r)
    ensures Disjoint(inputs) ==> Disjoint(r)
  {
    r := inputs;
    if inputs == [] { return; }
    var _, k := GetRange(inputs);
    var searching := true;
    ghost var convex := PairwiseApart(levelFiles) && Convex(levelFiles, inputs);
    while searching
      invariant inputs <= r && AllIn(r, levelFiles) && IsLargest(r, k) && Linked(r, |inputs|)
      invariant NoDuplicates(inputs) ==> NoDuplicates(r)
      invariant Disjoint(inputs) ==> Disjoint(r)
      invariant !searching ==> forall f :: f in levelFiles ==> !BoundaryAfter(f, k)
      invariant convex ==> Convex(levelFiles, r)
      decreases searching, StartingAfter(levelFiles, k)
    {
      var b := FindSmallestBoundaryFile(levelFiles, k);
      if b.Some? {
        LargerKeyLeavesFewer(levelFiles, b.value, k);
        BoundaryExtends(r, |inputs|, k, b.value);
        if Disjoint(r) { BoundaryInOrder(r, k, b.value); }
        if convex {
          BoundaryKeepsConvex(levelFiles, r, k, b.value);
        }
        r := r + [b.value];
        k := b.value.largest;
      } else {
        searching := false;
      }
    }
    LargestIsUnique(r, k);
  }

  lemma LargestIsUnique(fs: seq<File>, k: InternalKey)
    requires IsLargest(fs, k)
    ensures forall k' :: IsLargest(fs, k') ==> k' == k
  {
    forall k' | IsLargest(fs, k') ensures k' == k { OrderIsTotal(k, k'); }
  }

  lemma LinkedSnoc(fs: seq<File>, n: nat, b: File)
    requires n <= |fs| && Linked(fs, n) && MeetsHull(fs, b)
    ensures Linked(fs + [b], n)
  {
    var r := fs + [b];
    forall i | n <= i < |r| ensures MeetsHull(r[..i], r[i]) {
      if i < |fs| { assert r[..i] == fs[..i]; } else { assert r[..i] == fs; }
    }
  }

  lemma LargestSnoc(fs: seq<File>, k: InternalKey, b: File)
    requires IsLargest(fs, k) && AtMost(k, b.largest) && k != b.largest
    ensures IsLargest(fs + [b], b.largest) && b !in fs
  {
    forall f | f in fs ensures AtMost(f.largest, b.largest) && f != b {
      assert AtMost(f.largest, k);
    }
    assert b in fs + [b];
  }

  lemma BoundaryExtends(fs: seq<File>, n: nat, k: InternalKey, b: File)
    requires ValidFile(b) && n <= |fs| && IsLargest(fs, k) && Linked(fs, n) && BoundaryAfter(b, k)
    requires forall f :: f in fs ==> ValidFile(f)
    ensures IsLargest(fs + [b], b.largest) && Linked(fs + [b], n)
    ensures NoDuplicates(fs) ==> NoDuplicates(fs + [b])
  {
    EndsAreEntries(b);
    LargestSnoc(fs, k, b);
    var m :| m in fs && m.largest == k;
    EndsAreEntries(m);
    assert MeetsHull(fs, b);
    LinkedSnoc(fs, n, b);
    if NoDuplicates(fs) { NoDuplicatesSnoc(fs, b); }
  }

  lemma NoDuplicatesSnoc(fs: seq<File>, b: File)
    requires NoDuplicates(fs) && b !in fs
    ensures NoDuplicates(fs + [b])
  {
    var r := fs + [b];
    forall i, j | 0 <= i < j < |r| ensures r[i] != r[j] {
      assert r[i] == fs[i] && fs[i] in fs;
      if j < |fs| { assert r[j] == fs[j]; }
    }
  }
}
