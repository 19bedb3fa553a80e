/** The manifest as bytes: the version edits it holds, and the version recovered from it. */
module ManifestFiles {
  import opened Keys
  import opened Coding
  import opened Files
  import opened Builder
  import opened Separators
  import VE = VersionEdits
  import LF = LogFormat
  import LogFiles

  /** What byte keys and values are to the state machine: ranks under the comparator, and strings. */
  datatype Meaning = Meaning(rank: Bytes -> UserKey, text: Bytes -> string)

  /** ParseInternalKey: the user key, then the packed number and type; nothing when it is too short or of no type. */
  function ParseInternalKey(k: Bytes, mean: Meaning): Option<InternalKey> {
    if !LongEnough(k) || NumberOf(k) % 256 > 1 then None
    else Some(InternalKey(mean.rank(UserOf(k)), NumberOf(k) / 256, if NumberOf(k) % 256 == 0 then Deletion else Value))
  }

  /** AppendInternalKey. */
  function InternalKeyBytes(user: Bytes, sn: nat, t: ValueType): Bytes
    requires sn <= MAX_SEQUENCE
  {
    user + Fixed64Bytes(PackSequenceAndType(sn, t))
  }

  lemma KeyParses(user: Bytes, sn: nat, t: ValueType, mean: Meaning)
    requires sn <= MAX_SEQUENCE
    ensures ParseInternalKey(InternalKeyBytes(user, sn, t), mean) == Some(InternalKey(mean.rank(user), sn, t))
  {
    hide Fixed64Bytes, DecodeFixed64;
    var n, k := PackSequenceAndType(sn, t), InternalKeyBytes(user, sn, t);
    Fixed64RoundTrip(n);
    assert k[..|k| - 8] == user && k[|k| - 8..] == Fixed64Bytes(n);
    assert n % 256 == TypeByte(t) && n / 256 == sn;
  }

  /** x is ranked before y just when it is before y. */
  ghost predicate RankedInOrder(x: Bytes, y: Bytes, mean: Meaning) {
    mean.rank(x) < mean.rank(y) <==> BytesLess(x, y)
  }

  /** With the two user keys ranked in their byte order, keys as bytes are in the order of the keys they are. */
  lemma ParsedInOrder(a: Bytes, b: Bytes, mean: Meaning)
    requires RankedInOrder(UserOf(a), UserOf(b), mean) && RankedInOrder(UserOf(b), UserOf(a), mean)
    requires ParseInternalKey(a, mean).Some? && ParseInternalKey(b, mean).Some?
    ensures InternalLess(a, b) <==> Less(ParseInternalKey(a, mean).value, ParseInternalKey(b, mean).value)
  {
    hide BytesLess, UserOf, NumberOf;
    BytesOrder(UserOf(a), UserOf(b));
    var m, n := NumberOf(a), NumberOf(b);
    assert m == m / 256 * 256 + m % 256 && n == n / 256 * 256 + n % 256;
  }

  // ------------------------------------------------------------ ranks

  /** Those of the keys that are before x. */
  ghost function KeysBelow(keys: set<Bytes>, x: Bytes): set<Bytes> {
    set y | y in keys && BytesLess(y, x)
  }

  ghost function RankIn(keys: set<Bytes>, x: Bytes): UserKey {
    |KeysBelow(keys, x)|
  }

  lemma FewerBelow(keys: set<Bytes>, x: Bytes, y: Bytes)
    requires x in keys && BytesLess(x, y)
    ensures RankIn(keys, x) < RankIn(keys, y)
  {
    hide BytesLess;
    BytesOrder(x, x);
    forall z | z in KeysBelow(keys, x) ensures z in KeysBelow(keys, y) { BytesTransitive(z, x, y); }
    assert x in KeysBelow(keys, y) && x !in KeysBelow(keys, x);
    SubsetIsSmaller(KeysBelow(keys, x), KeysBelow(keys, y));
  }

  lemma SubsetIsSmaller(a: set<Bytes>, b: set<Bytes>)
    requires a < b
    ensures |a| < |b|
  {
    var x :| x in b && x !in a;
    assert x in b - a && b == a + (b - a);
  }

  /** The key of that rank. */
  ghost function KeyOfRank(keys: set<Bytes>, u: UserKey): Bytes {
    if x :| x in keys && RankIn(keys, x) == u then x else []
  }

  /** Bytes as characters of a string, and back. */
  function TextOf(b: Bytes): string {
    seq(|b|, i requires 0 <= i < |b| => b[i] as char)
  }

  function BytesOfText(s: string): Bytes {
    seq(|s|, i requires 0 <= i < |s| => s[i] as int % 256)
  }

  ghost predicate IsText(s: string) {
    forall i :: 0 <= i < |s| ==> s[i] as int < 256
  }

  lemma TextComesBack(s: string)
    requires IsText(s)
    ensures TextOf(BytesOfText(s)) == s
  {
  }

  ghost function MeaningOf(keys: set<Bytes>): Meaning {
    Meaning(x => RankIn(keys, x), TextOf)
  }

  ghost function NameIn(keys: set<Bytes>): UserKey -> Bytes {
    u => KeyOfRank(keys, u)
  }

  /** The keys of a run, however many, have ranks in their order, and each rank of theirs names its key. */
  lemma KeysHaveRanks(keys: set<Bytes>)
    ensures forall x, y :: x in keys && y in keys ==> RankedInOrder(x, y, MeaningOf(keys))
    ensures forall x :: x in keys ==> NameIn(keys)(MeaningOf(keys).rank(x)) == x
  {
    hide BytesLess, RankIn;
    forall x, y | x in keys && y in keys ensures RankedInOrder(x, y, MeaningOf(keys)) && (RankIn(keys, x) == RankIn(keys, y) ==> x == y) {
      BytesOrder(x, y);
      if BytesLess(x, y) { FewerBelow(keys, x, y); }
      if BytesLess(y, x) { FewerBelow(keys, y, x); }
    }
    forall x | x in keys ensures KeyOfRank(keys, RankIn(keys, x)) == x { }
  }

  // ------------------------------------------------------------ files of a record

  /** The keys of a new-file item are internal keys. */
  predicate KeysParse(x: VE.Item, mean: Meaning) {
    x.NewFile? ==> ParseInternalKey(x.smallest, mean).Some? && ParseInternalKey(x.largest, mean).Some?
  }

  predicate AllParse(xs: seq<VE.Item>, mean: Meaning) {
    forall x :: x in xs ==> KeysParse(x, mean)
  }

  /** The file a new-file item describes: number, size and range from the item, entries from the table of that number. */
  function FileOf(x: VE.Item, mean: Meaning, table: nat -> seq<Entry>): File
    requires x.NewFile? && KeysParse(x, mean)
  {
    File(x.number, x.size, ParseInternalKey(x.smallest, mean).value, ParseInternalKey(x.largest, mean).value, table(x.number))
  }

  /** The files of the new-file items for level l. */
  function AddedTo(xs: seq<VE.Item>, l: nat, mean: Meaning, table: nat -> seq<Entry>): seq<File>
    requires AllParse(xs, mean)
  {
    if xs == [] then []
    else
      var n := |xs| - 1;
      assert xs[n] in xs;
      AddedTo(xs[..n], l, mean, table) + if xs[n].NewFile? && xs[n].level == l then [FileOf(xs[n], mean, table)] else []
  }

  function DeletedAt(xs: seq<VE.Item>, l: nat): set<nat> {
    set x | x in xs && x.DeletedFile? && x.level == l :: x.number
  }

  function LevelsOf(e: VE.Edit, mean: Meaning, table: nat -> seq<Entry>): LevelEdits
    requires AllParse(e.newFiles, mean)
  {
    seq(NUM_LEVELS, l requires 0 <= l => LevelEdit(DeletedAt(e.deletedFiles, l), AddedTo(e.newFiles, l, mean, table)))
  }

  /** A number that is there is n. */
  predicate AgreesWith(x: Option<nat>, n: nat) {
    x.Some? ==> x.value == n
  }

  /** The record is the items of x: its keys are internal keys, and the comparator, if named, is ours. */
  ghost predicate IsRecord(r: Bytes, x: VE.Edit, mean: Meaning, comparator: Bytes) {
    VE.EditOk(x) && r == VE.Encoding(VE.Items(x)) && AllParse(x.newFiles, mean) && (x.comparator.Some? ==> x.comparator.value == comparator)
  }

  /** The record is the edit e: its files have the numbers, sizes and ranges that the items give. The counters may be missing. */
  ghost predicate IsEdit(r: Bytes, x: VE.Edit, e: LoggedEdit, mean: Meaning, table: nat -> seq<Entry>, comparator: Bytes) {
    IsRecord(r, x, mean, comparator) && e.levels == LevelsOf(x, mean, table) &&
    AgreesWith(x.logNumber, e.logNumber) && AgreesWith(x.nextFileNumber, e.nextFile) && AgreesWith(x.lastSequence, e.lastSequence)
  }

  ghost predicate AreEdits(rs: seq<Bytes>, xs: seq<VE.Edit>, m: Manifest, mean: Meaning, table: nat -> seq<Entry>, comparator: Bytes) {
    |rs| == |xs| == |m| && forall i :: 0 <= i < |m| ==> IsEdit(rs[i], xs[i], m[i], mean, table, comparator)
  }

  /** The file is a manifest of m, cut off anywhere after its first n edits; the last of these carries all counters. */
  ghost predicate IsManifest(file: Bytes, crc: LF.Checksum, rs: seq<Bytes>, xs: seq<VE.Edit>, m: Manifest, n: nat,
                             mean: Meaning, table: nat -> seq<Entry>, comparator: Bytes) {
    file <= LF.LogBytes(crc, rs) && AreEdits(rs, xs, m, mean, table, comparator) && LogFiles.Complete(rs, |file|) == n && 0 < n <= |m| &&
    HasCounters(xs[n - 1])
  }

  predicate HasCounters(x: VE.Edit) {
    x.logNumber.Some? && x.nextFileNumber.Some? && x.lastSequence.Some?
  }

  /** What Recover has gathered: the levels, and the counters last seen. */
  datatype Counters = Counters(logNumber: Option<nat>, nextFile: Option<nat>, lastSequence: Option<nat>)

  function Or(a: Option<nat>, b: Option<nat>): Option<nat> {
    if a.Some? then a else b
  }

  function Taken(c: Counters, x: VE.Edit): Counters {
    Counters(Or(x.logNumber, c.logNumber), Or(x.nextFileNumber, c.nextFile), Or(x.lastSequence, c.lastSequence))
  }

  function CountersOf(e: LoggedEdit): Counters {
    Counters(Some(e.logNumber), Some(e.nextFile), Some(e.lastSequence))
  }

  ghost predicate Gathered(levels: seq<LevelState>, m: Manifest, i: nat)
    requires i <= |m|
  {
    |levels| == NUM_LEVELS && forall l :: 0 <= l < NUM_LEVELS ==> levels[l] == Gather(LevelPart(m[..i], l))
  }

  lemma GatheredMore(before: seq<LevelState>, levels: seq<LevelState>, m: Manifest, i: nat)
    requires i < |m| && Gathered(before, m, i) && |levels| == NUM_LEVELS
    requires forall l :: 0 <= l < NUM_LEVELS ==> levels[l] == ApplyLevel(before[l], m[i].levels[l])
    ensures Gathered(levels, m, i + 1)
  {
    hide ApplyLevel;
    forall l | 0 <= l < NUM_LEVELS ensures levels[l] == Gather(LevelPart(m[..i + 1], l)) {
      var a := LevelPart(m[..i + 1], l);
      assert a[..i] == LevelPart(m[..i], l) && a[i] == m[i].levels[l];
    }
  }

  function PointersOf(xs: seq<VE.Item>): (r: seq<(nat, Bytes)>)
    requires VE.AllPointers(xs) && VE.AllFit(xs)
    ensures forall p :: p in r ==> p.0 < NUM_LEVELS
  {
    if xs == [] then []
    else
      var n := |xs| - 1;
      assert xs[n] in xs;
      PointersOf(xs[..n]) + [(xs[n].level, xs[n].key)]
  }

  /** The compaction pointers after the first i edits. */
  ghost function PointersAfter(pointers: seq<Bytes>, xs: seq<VE.Edit>, i: nat): (r: seq<Bytes>)
    requires i <= |xs|
    ensures |r| == |pointers|
  {
    if i == 0 then pointers
    else
      var before, ps := PointersAfter(pointers, xs, i - 1), xs[i - 1].compactPointers;
      if VE.AllPointers(ps) && VE.AllFit(ps) then Pointed(before, PointersOf(ps)) else before
  }

  /** One record of the manifest. */
  method ReadEdit(record: Bytes, comparator: Bytes, mean: Meaning, ghost x: VE.Edit) returns (ok: bool, e: VE.Edit)
    ensures IsRecord(record, x, mean, comparator) ==> ok && e == x
    ensures VE.AllPointers(e.compactPointers) && VE.AllFit(e.compactPointers) && (ok ==> AllParse(e.newFiles, mean))
  {
    hide VE.EditOk, VE.Encoding, VE.Items, KeysParse;
    var edit := new VE.VersionEdit();
    ok := edit.DecodeFrom(record, x);
    e := edit.Contents();
    if (e.comparator.Some? && e.comparator.value != comparator) || !AllParse(e.newFiles, mean) {
      ok := false;
    }
  }

  lemma NoPointers(pointers: seq<Bytes>, xs: seq<VE.Edit>)
    ensures PointersAfter(pointers, xs, 0) == pointers
  {
  }

  lemma NextPointers(pointers: seq<Bytes>, xs: seq<VE.Edit>, i: nat)
    requires i < |xs| && VE.AllPointers(xs[i].compactPointers) && VE.AllFit(xs[i].compactPointers)
    ensures PointersAfter(pointers, xs, i + 1) == Pointed(PointersAfter(pointers, xs, i), PointersOf(xs[i].compactPointers))
  {
  }

  /** VersionSet::Recover: of a manifest cut off anywhere, the version of the edits that are there whole, and the counters of the
      last of these. pointers are the compaction pointers to begin with. */
  method RecoverManifest(file: Bytes, crc: LF.Checksum, mean: Meaning, table: nat -> seq<Entry>, comparator: Bytes, pointers: seq<Bytes>,
                         ghost rs: seq<Bytes>, ghost xs: seq<VE.Edit>, ghost m: Manifest, ghost n: nat)
    returns (ok: bool, v: Version, c: Counters, compactPointers: seq<Bytes>)
    requires |pointers| == NUM_LEVELS
    ensures IsManifest(file, crc, rs, xs, m, n, mean, table, comparator) ==>
      ok && v == Replay(m[..n]) && c == CountersOf(m[n - 1]) && compactPointers == PointersAfter(pointers, xs, n)
  {
    hide LF.LogBytes, VE.EditOk, VE.Encoding, VE.Items, LevelsOf, Gather, ApplyLevel, SaveLevel, LogFiles.Complete, PointersAfter, PointersOf, Pointed,
         VE.AllPointers, VE.AllFit, Gathered, Replay, AllParse;
    ghost var near := IsManifest(file, crc, rs, xs, m, n, mean, table, comparator);
    var records, reported := LogFiles.ReadLog(file, crc, true, rs);
    var builder := new VersionBuilder(EmptyVersion, pointers);
    c := Counters(None, None, None);
    v, compactPointers := EmptyVersion, pointers;
    if near { NothingGathered(builder.levels, m); }
    NoPointers(pointers, xs);
    for i := 0 to |records|
      invariant fresh(builder) && builder.Valid() && builder.base == EmptyVersion
      invariant near ==> Gathered(builder.levels, m, i) && builder.compactPointers == PointersAfter(pointers, xs, i)
      invariant near && i == n ==> c == CountersOf(m[i - 1])
    {
      if near { assert IsEdit(rs[i], xs[i], m[i], mean, table, comparator); }
      var x;
      ok, x := ReadEdit(records[i], comparator, mean, if near then xs[i] else VE.FRESH);
      if !ok {
        return;
      }
      if near { NextPointers(pointers, xs, i); }
      ghost var before := builder.levels;
      builder.Apply(LoggedEdit(LevelsOf(x, mean, table), 0, 0, 0), PointersOf(x.compactPointers));
      if near { GatheredMore(before, builder.levels, m, i); }
      c := Taken(c, x);
    }
    compactPointers := builder.compactPointers;
    ok := c.nextFile.Some? && c.logNumber.Some? && c.lastSequence.Some?;
    if ok {
      v := builder.SaveTo();
    }
    if near { SavedIsReplay(builder.levels, v, m, n); }
  }

  lemma NothingGathered(levels: seq<LevelState>, m: Manifest)
    requires |levels| == NUM_LEVELS && forall l :: 0 <= l < NUM_LEVELS ==> levels[l] == Gather([])
    ensures Gathered(levels, m, 0)
  {
    assert forall l: nat :: l < NUM_LEVELS ==> LevelPart(m[..0], l) == [];
  }

  lemma SavedIsReplay(levels: seq<LevelState>, v: Version, m: Manifest, n: nat)
    requires n <= |m| && Gathered(levels, m, n)
    requires forall l :: 0 <= l < NUM_LEVELS ==> v[l] == SaveLevel(EmptyVersion[l], levels[l])
    ensures v == Replay(m[..n])
  {
    hide SaveLevel, Gather;
    assert forall l :: 0 <= l < NUM_LEVELS ==> v[l] == Replay(m[..n])[l];
  }

  // ------------------------------------------------------------ every edit has a record

  /** The byte key of rank u. */
  ghost predicate Named(u: UserKey, name: UserKey -> Bytes, mean: Meaning) {
    mean.rank(name(u)) == u && |name(u)| < 0xFFFF_FFF0
  }

  /** Within the widths of the fields, and as the table of its number. */
  ghost predicate FileFits(f: File, name: UserKey -> Bytes, mean: Meaning, table: nat -> seq<Entry>) {
    f.number < TWO_64 && f.size < TWO_64 && f.smallest.sn <= MAX_SEQUENCE && f.largest.sn <= MAX_SEQUENCE && table(f.number) == f.entries &&
    Named(f.smallest.user, name, mean) && Named(f.largest.user, name, mean)
  }

  ghost predicate EditFits(e: LoggedEdit, name: UserKey -> Bytes, mean: Meaning, table: nat -> seq<Entry>) {
    e.logNumber < TWO_64 && e.nextFile < TWO_64 && e.lastSequence < TWO_64 &&
    forall l :: 0 <= l < NUM_LEVELS ==>
      (forall n :: n in e.levels[l].deleted ==> n < TWO_64) && forall f :: f in e.levels[l].added ==> FileFits(f, name, mean, table)
  }

  function KeyBytes(k: InternalKey, name: UserKey -> Bytes): Bytes
    requires k.sn <= MAX_SEQUENCE
  {
    InternalKeyBytes(name(k.user), k.sn, k.typ)
  }

  /** The item of one file more in a level. */
  function FileItem(l: nat, f: File, name: UserKey -> Bytes): VE.Item
    requires f.smallest.sn <= MAX_SEQUENCE && f.largest.sn <= MAX_SEQUENCE
  {
    VE.NewFile(l, f.number, f.size, KeyBytes(f.smallest, name), KeyBytes(f.largest, name))
  }

  lemma ItemIsFile(l: nat, f: File, name: UserKey -> Bytes, mean: Meaning, table: nat -> seq<Entry>)
    requires l < NUM_LEVELS && FileFits(f, name, mean, table)
    ensures f.smallest.sn <= MAX_SEQUENCE && f.largest.sn <= MAX_SEQUENCE
    ensures VE.ItemOk(FileItem(l, f, name)) && KeysParse(FileItem(l, f, name), mean) && FileOf(FileItem(l, f, name), mean, table) == f
  {
    hide ParseInternalKey;
    KeyParses(name(f.smallest.user), f.smallest.sn, f.smallest.typ, mean);
    KeyParses(name(f.largest.user), f.largest.sn, f.largest.typ, mean);
  }

  /** The items of the files of one level: they add these files there, and nothing elsewhere. */
  lemma {:induction false} FileItems(l: nat, fs: seq<File>, name: UserKey -> Bytes, mean: Meaning, table: nat -> seq<Entry>) returns (xs: seq<VE.Item>)
    requires l < NUM_LEVELS && forall f :: f in fs ==> FileFits(f, name, mean, table)
    ensures AllParse(xs, mean) && forall x :: x in xs ==> x.NewFile? && VE.ItemOk(x)
    ensures forall k :: AddedTo(xs, k, mean, table) == if k == l then fs else []
  {
    hide FileFits, VE.ItemOk, KeysParse, FileOf, KeyBytes;
    if fs == [] {
      xs := [];
    } else {
      var n := |fs| - 1;
      var before := FileItems(l, fs[..n], name, mean, table);
      assert fs[n] in fs;
      ItemIsFile(l, fs[n], name, mean, table);
      xs := before + [FileItem(l, fs[n], name)];
      assert xs[..|before|] == before && fs == fs[..n] + [fs[n]];
    }
  }

  lemma {:induction false} AddedInTurn(xs: seq<VE.Item>, ys: seq<VE.Item>, l: nat, mean: Meaning, table: nat -> seq<Entry>)
    requires AllParse(xs, mean) && AllParse(ys, mean)
    ensures AllParse(xs + ys, mean) && AddedTo(xs + ys, l, mean, table) == AddedTo(xs, l, mean, table) + AddedTo(ys, l, mean, table)
  {
    hide KeysParse, FileOf;
    if ys == [] {
      assert xs + ys == xs;
    } else {
      var n := |ys| - 1;
      AddedInTurn(xs, ys[..n], l, mean, table);
      assert (xs + ys)[..|xs| + n] == xs + ys[..n] && (xs + ys)[|xs| + n] == ys[n];
    }
  }

  /** The items of the files of the first k levels. */
  lemma {:induction false} AllFileItems(e: LoggedEdit, k: nat, name: UserKey -> Bytes, mean: Meaning, table: nat -> seq<Entry>)
    returns (xs: seq<VE.Item>)
    requires k <= NUM_LEVELS && EditFits(e, name, mean, table)
    ensures AllParse(xs, mean) && forall x :: x in xs ==> x.NewFile? && VE.ItemOk(x)
    ensures forall l :: 0 <= l < NUM_LEVELS ==> AddedTo(xs, l, mean, table) == if l < k then e.levels[l].added else []
  {
    hide FileFits, VE.ItemOk, AllParse;
    if k == 0 {
      xs := [];
      NothingAdded(mean, table);
    } else {
      var before := AllFileItems(e, k - 1, name, mean, table);
      var more := FileItems(k - 1, e.levels[k - 1].added, name, mean, table);
      xs := before + more;
      forall l | 0 <= l < NUM_LEVELS ensures AllParse(xs, mean) && AddedTo(xs, l, mean, table) == if l < k then e.levels[l].added else [] {
        AddedInTurn(before, more, l, mean, table);
      }
      AddedInTurn(before, more, 0, mean, table);
    }
  }

  lemma NothingAdded(mean: Meaning, table: nat -> seq<Entry>)
    ensures AllParse([], mean) && forall l :: AddedTo([], l, mean, table) == []
  {
  }

  /** The numbers of a set, in order. */
  lemma {:induction false} InOrder(s: set<nat>) returns (ns: seq<nat>)
    ensures (forall n :: n in ns <==> n in s) && forall i, j :: 0 <= i < j < |ns| ==> ns[i] < ns[j]
    decreases s
  {
    if s == {} {
      ns := [];
    } else {
      var n := Largest(s);
      var before := InOrder(s - {n});
      ns := before + [n];
      assert ns[|before|] == n;
      forall i | 0 <= i < |before| ensures before[i] < n { assert before[i] in before; }
    }
  }

  lemma {:induction false} Largest(s: set<nat>) returns (n: nat)
    requires s != {}
    ensures n in s && forall m :: m in s ==> m <= n
    decreases s
  {
    var x :| x in s;
    if s == {x} {
      n := x;
    } else {
      var m := Largest(s - {x});
      n := if x < m then m else x;
      forall y | y in s ensures y <= n {
        if y != x { assert y in s - {x}; }
      }
    }
  }

  /** The items of the deleted files of the first k levels, in the order they are written. */
  lemma {:induction false} DeletedItems(e: LoggedEdit, k: nat, name: UserKey -> Bytes, mean: Meaning, table: nat -> seq<Entry>) returns (xs: seq<VE.Item>)
    requires k <= NUM_LEVELS && EditFits(e, name, mean, table)
    ensures VE.AllDeleted(xs) && forall x :: x in xs ==> VE.ItemOk(x) && x.level < k
    ensures forall i, j :: 0 <= i < j < |xs| ==> VE.DeletedBefore(xs[i], xs[j])
    ensures forall l :: 0 <= l < NUM_LEVELS ==> DeletedAt(xs, l) == if l < k then e.levels[l].deleted else {}
  {
    hide FileFits;
    if k == 0 {
      xs := [];
    } else {
      var before := DeletedItems(e, k - 1, name, mean, table);
      var ns := InOrder(e.levels[k - 1].deleted);
      var more := seq(|ns|, i requires 0 <= i < |ns| => VE.DeletedFile(k - 1, ns[i]));
      xs := before + more;
      LevelDeleted(before, ns, k - 1, e.levels[k - 1].deleted);
      forall i | 0 <= i < |ns| ensures ns[i] in e.levels[k - 1].deleted { assert ns[i] in ns; }
      forall i, j | 0 <= i < j < |xs| ensures VE.DeletedBefore(xs[i], xs[j]) {
        if i < |before| { assert xs[i] in before; }
      }
    }
  }

  lemma LevelDeleted(before: seq<VE.Item>, ns: seq<nat>, k: nat, s: set<nat>)
    requires forall x :: x in before ==> x.DeletedFile? && x.level < k
    requires forall n :: n in ns <==> n in s
    ensures var xs := before + seq(|ns|, i requires 0 <= i < |ns| => VE.DeletedFile(k, ns[i]));
      DeletedAt(xs, k) == s && forall l :: l != k ==> DeletedAt(xs, l) == DeletedAt(before, l)
  {
    var more := seq(|ns|, i requires 0 <= i < |ns| => VE.DeletedFile(k, ns[i]));
    var xs := before + more;
    forall n | n in s ensures n in DeletedAt(xs, k) {
      var i :| 0 <= i < |ns| && ns[i] == n;
      assert more[i] in xs;
    }
    forall l, n | l != k ensures n in DeletedAt(xs, l) <==> n in DeletedAt(before, l) {
      if n in DeletedAt(before, l) { assert VE.DeletedFile(l, n) in xs; }
    }
  }

  /** Every edit within the widths of the fields has a record, with all counters. */
  lemma EditHasRecord(e: LoggedEdit, name: UserKey -> Bytes, mean: Meaning, table: nat -> seq<Entry>, comparator: Bytes) returns (x: VE.Edit)
    requires EditFits(e, name, mean, table) && |comparator| < 0x1_0000_0000
    ensures IsEdit(VE.Encoding(VE.Items(x)), x, e, mean, table, comparator) && HasCounters(x)
  {
    hide AllParse, AddedTo, DeletedAt, VE.Encoding, EditFits;
    var added := AllFileItems(e, NUM_LEVELS, name, mean, table);
    var deleted := DeletedItems(e, NUM_LEVELS, name, mean, table);
    x := VE.Edit(Some(comparator), Some(e.logNumber), Some(0), Some(e.nextFile), Some(e.lastSequence), [], deleted, added);
    CountersFit(e, name, mean, table);
    WholeEdit(x);
    assert LevelsOf(x, mean, table) == e.levels;
  }

  /** One of them: a file of one entry is added, and another one deleted. */
  lemma SomeEditHasRecord() returns (e: LoggedEdit, x: VE.Edit, mean: Meaning, name: UserKey -> Bytes, table: nat -> seq<Entry>)
    ensures IsEdit(VE.Encoding(VE.Items(x)), x, e, mean, table, []) && HasCounters(x) && EditFits(e, name, mean, table)
    ensures e.levels[0].added != [] && e.levels[1].deleted != {}
  {
    var keys: set<Bytes> := {[97]};
    mean, name := MeaningOf(keys), NameIn(keys);
    KeysHaveRanks(keys);
    var u := mean.rank([97]);
    var k := InternalKey(u, 1, Value);
    var f := File(5, 1, k, k, [Entry(k, "a")]);
    table := n => if n == 5 then f.entries else [];
    var levels: LevelEdits := seq(NUM_LEVELS, l => if l == 0 then LevelEdit({}, [f]) else if l == 1 then LevelEdit({4}, []) else NoChange);
    e := LoggedEdit(levels, 3, 6, 1);
    assert Named(u, name, mean) && FileFits(f, name, mean, table);
    assert EditFits(e, name, mean, table);
    x := EditHasRecord(e, name, mean, table, []);
  }

  lemma CountersFit(e: LoggedEdit, name: UserKey -> Bytes, mean: Meaning, table: nat -> seq<Entry>)
    requires EditFits(e, name, mean, table)
    ensures e.logNumber < TWO_64 && e.nextFile < TWO_64 && e.lastSequence < TWO_64
  {
  }

  lemma WholeEdit(x: VE.Edit)
    requires x.comparator.Some? && x.logNumber.Some? && x.prevLogNumber.Some? && x.nextFileNumber.Some? && x.lastSequence.Some?
    requires |x.comparator.value| < 0x1_0000_0000 && x.logNumber.value < TWO_64 && x.prevLogNumber.value < TWO_64
    requires x.nextFileNumber.value < TWO_64 && x.lastSequence.value < TWO_64 && x.compactPointers == []
    requires VE.AllDeleted(x.deletedFiles) && (forall y :: y in x.deletedFiles + x.newFiles ==> VE.ItemOk(y)) && forall y :: y in x.newFiles ==> y.NewFile?
    requires forall i, j :: 0 <= i < j < |x.deletedFiles| ==> VE.DeletedBefore(x.deletedFiles[i], x.deletedFiles[j])
    ensures VE.EditOk(x)
  {
    hide VE.Front, VE.DeletedBefore;
    FiveSingles(x);
  }

  lemma FiveSingles(x: VE.Edit)
    requires x.comparator.Some? && x.logNumber.Some? && x.prevLogNumber.Some? && x.nextFileNumber.Some? && x.lastSequence.Some?
    ensures VE.Singles(x) == [VE.ComparatorName(x.comparator.value), VE.LogNumber(x.logNumber.value), VE.PrevLogNumber(x.prevLogNumber.value),
      VE.NextFileNumber(x.nextFileNumber.value), VE.LastSequence(x.lastSequence.value)]
  {
    hide VE.Front;
    VE.FrontStep(x, 1);
    VE.FrontStep(x, 2);
    VE.FrontStep(x, 3);
    VE.FrontStep(x, 4);
    VE.FrontStep(x, 5);
  }
}
