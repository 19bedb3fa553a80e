/** Table files of one level and the searches over a level's file list. */
module Files {
  import opened Keys

  /** FileMetaData together with the table's entries. */
  datatype File = File(number: nat, size: nat, smallest: InternalKey, largest: InternalKey, entries: seq<Entry>)

  ghost predicate ValidFile(f: File) {
    |f.entries| > 0 && Sorted(f.entries) &&
    f.smallest == f.entries[0].key && f.largest == f.entries[|f.entries| - 1].key &&
    forall e :: e in f.entries ==> e.key.sn <= MAX_SEQUENCE
  }

  lemma EntryInRange(f: File, e: Entry)
    requires ValidFile(f) && e in f.entries
    ensures AtMost(f.smallest, e.key) && AtMost(e.key, f.largest)
    ensures f.smallest.user <= e.key.user <= f.largest.user
  {
    var i :| 0 <= i < |f.entries| && f.entries[i] == e;
  }

  lemma EndsAreEntries(f: File)
    requires ValidFile(f)
    ensures exists e :: e in f.entries && e.key == f.smallest
    ensures exists e :: e in f.entries && e.key == f.largest
    ensures f.smallest.user <= f.largest.user && AtMost(f.smallest, f.largest)
  {
    assert f.entries[0] in f.entries && f.entries[|f.entries| - 1] in f.entries;
  }

  /** f lies wholly before g in internal-key order. */
  predicate Before(f: File, g: File) {
    Less(f.largest, g.smallest)
  }

  /** The user-key range [lo, hi] and the user-key range of f have no key in common. */
  predicate Misses(f: File, lo: UserKey, hi: UserKey) {
    f.largest.user < lo || hi < f.smallest.user
  }

  /** Every entry of f is newer than every entry of g for the same user key. */
  ghost predicate Newer(f: File, g: File) {
    forall e, d :: e in f.entries && d in g.entries && e.key.user == d.key.user ==> e.key.sn > d.key.sn
  }

  lemma MissingFilesAreNewer(f: File, g: File)
    requires ValidFile(f) && ValidFile(g) && Misses(f, g.smallest.user, g.largest.user)
    ensures Newer(f, g) && Newer(g, f)
  {
    forall e, d | e in f.entries && d in g.entries ensures e.key.user != d.key.user {
      EntryInRange(f, e);
      EntryInRange(g, d);
    }
  }

  /** BySmallestKey: smallest key first, ties broken by file number. */
  predicate FileLess(f: File, g: File) {
    Less(f.smallest, g.smallest) || (f.smallest == g.smallest && f.number < g.number)
  }

  ghost predicate SortedFiles(fs: seq<File>) {
    forall i, j :: 0 <= i < j < |fs| ==> FileLess(fs[i], fs[j])
  }

  ghost predicate AllValid(fs: seq<File>) {
    forall f :: f in fs ==> ValidFile(f)
  }

  /** Levels 1 and up: the files are laid out one wholly after the other. */
  ghost predicate Disjoint(fs: seq<File>) {
    forall i, j :: 0 <= i < j < |fs| ==> Before(fs[i], fs[j])
  }

  ghost predicate PairwiseApart(fs: seq<File>) {
    forall f, g :: f in fs && g in fs && f != g ==> Before(f, g) || Before(g, f)
  }

  lemma SortedApartIsDisjoint(fs: seq<File>)
    requires AllValid(fs) && SortedFiles(fs) && PairwiseApart(fs)
    ensures Disjoint(fs)
  {
    forall i, j | 0 <= i < j < |fs| ensures Before(fs[i], fs[j]) {
      assert FileLess(fs[i], fs[j]) && fs[i] in fs && fs[j] in fs;
      EndsAreEntries(fs[i]);
      EndsAreEntries(fs[j]);
    }
  }

  lemma DisjointIsApart(fs: seq<File>)
    requires Disjoint(fs)
    ensures PairwiseApart(fs)
  {
  }

  /** Binary search for the first file whose largest key is at or after key. */
  method FindFile(files: seq<File>, key: InternalKey) returns (r: nat)
    requires AllValid(files) && Disjoint(files)
    ensures r == FirstReaching(files, key)
  {
    var left, right := 0, |files|;
    while left < right
      invariant 0 <= left <= right <= |files|
      invariant forall i :: 0 <= i < left ==> Less(files[i].largest, key)
      invariant right < |files| ==> !Less(files[right].largest, key)
    {
      var mid := (left + right) / 2;
      if Less(files[mid].largest, key) {
        forall i | 0 <= i < mid ensures Less(files[i].largest, key) {
          assert files[mid] in files && Before(files[i], files[mid]);
          EndsAreEntries(files[mid]);
        }
        left := mid + 1;
      } else {
        right := mid;
      }
    }
    r := right;
    FirstReachingIsUnique(files, key, 0, r);
  }

  /** Linear scan: the first file whose largest key is at or after key. */
  function ReachingFrom(files: seq<File>, key: InternalKey, i: nat): (r: nat)
    requires i <= |files|
    ensures i <= r <= |files|
    ensures forall j :: i <= j < r ==> Less(files[j].largest, key)
    ensures r < |files| ==> !Less(files[r].largest, key)
    decreases |files| - i
  {
    if i == |files| || !Less(files[i].largest, key) then i else ReachingFrom(files, key, i + 1)
  }

  function FirstReaching(files: seq<File>, key: InternalKey): (r: nat)
    ensures r <= |files|
    ensures forall j :: 0 <= j < r ==> Less(files[j].largest, key)
    ensures r < |files| ==> !Less(files[r].largest, key)
  {
    ReachingFrom(files, key, 0)
  }

  lemma FirstReachingIsUnique(files: seq<File>, key: InternalKey, i: nat, r: nat)
    requires i <= r <= |files|
    requires forall j :: i <= j < r ==> Less(files[j].largest, key)
    requires r < |files| ==> !Less(files[r].largest, key)
    ensures ReachingFrom(files, key, i) == r
  {
  }

  /** SomeFileOverlapsRange: a scan when files may overlap, a binary search when they may not.
      Either way the answer is whether some file meets [lo, hi]. */
  method SomeFileOverlapsRange(disjoint: bool, files: seq<File>, lo: Option<UserKey>, hi: Option<UserKey>)
    returns (overlaps: bool)
    requires AllValid(files)
    requires disjoint ==> Disjoint(files)
    ensures overlaps <==> exists f :: f in files && !After(lo, f) && !BeforeRange(hi, f)
  {
    if !disjoint {
      for i := 0 to |files|
        invariant forall j :: 0 <= j < i ==> After(lo, files[j]) || BeforeRange(hi, files[j])
      {
        if !(After(lo, files[i]) || BeforeRange(hi, files[i])) { return true; }
      }
      return false;
    }
    var index := 0;
    if lo.Some? {
      index := FindFile(files, InternalKey(lo.value, MAX_SEQUENCE, Value));
    }
    forall j | 0 <= j < index ensures After(lo, files[j]) {
      assert files[j] in files;
      LargestBeforeSeek(files[j], lo.value);
    }
    if index >= |files| { return false; }
    var f := files[index];
    assert f in files;
    if lo.Some? { LargestBeforeSeek(f, lo.value); }
    overlaps := !BeforeRange(hi, f);
    forall j | index < j < |files| && BeforeRange(hi, f) ensures BeforeRange(hi, files[j]) {
      assert files[j] in files && Before(f, files[j]);
      EndsAreEntries(f);
    }
  }

  /** AfterFile: user key lo comes after all of f; a missing lo is never after. */
  predicate After(lo: Option<UserKey>, f: File) {
    lo.Some? && lo.value > f.largest.user
  }

  /** BeforeFile: user key hi comes before all of f; a missing hi is never before. */
  predicate BeforeRange(hi: Option<UserKey>, f: File) {
    hi.Some? && hi.value < f.smallest.user
  }

  /** Comparing with the earliest internal key of u decides the user-key order. */
  lemma LargestBeforeSeek(f: File, u: UserKey)
    requires ValidFile(f)
    ensures Less(f.largest, InternalKey(u, MAX_SEQUENCE, Value)) <==> f.largest.user < u
  {
    assert f.entries[|f.entries| - 1] in f.entries;
  }
}
