/** Point lookups: Version::Get over the seven levels, and the memtables before it. */
module Reads {
  import opened Keys
  import opened History
  import opened Files
  import opened Builder

  /** Files whose user-key range contains u. */
  function Covering(fs: seq<File>, u: UserKey): seq<File> {
    if fs == [] then []
    else (if fs[0].smallest.user <= u <= fs[0].largest.user then [fs[0]] else []) + Covering(fs[1..], u)
  }

  function InsertNewestFirst(fs: seq<File>, f: File): seq<File> {
    if fs == [] || f.number > fs[0].number then [f] + fs
    else [fs[0]] + InsertNewestFirst(fs[1..], f)
  }

  /** Sorted by descending file number. */
  function NewestFirst(fs: seq<File>): seq<File> {
    if fs == [] then [] else InsertNewestFirst(NewestFirst(fs[1..]), fs[0])
  }

  function FirstProbe(fs: seq<File>, u: UserKey, s: nat): Option<Entry> {
    if fs == [] then None
    else
      var r := Probe(fs[0].entries, u, s);
      if r.Some? then r else FirstProbe(fs[1..], u, s)
  }

  /** One file of a level of disjoint files can hold the answer. */
  function ProbeLevel(fs: seq<File>, u: UserKey, s: nat): Option<Entry> {
    var i := FirstReaching(fs, SeekKey(u, s));
    if i < |fs| && fs[i].smallest.user <= u then Probe(fs[i].entries, u, s) else None
  }

  function SearchFrom(v: Version, u: UserKey, s: nat, l: nat): Option<Entry>
    requires 1 <= l <= NUM_LEVELS
    decreases NUM_LEVELS - l
  {
    if l == NUM_LEVELS then None
    else
      var r := ProbeLevel(v[l], u, s);
      if r.Some? then r else SearchFrom(v, u, s, l + 1)
  }

  function VersionGet(v: Version, u: UserKey, s: nat): Option<Entry>
  {
    var r := FirstProbe(NewestFirst(Covering(v[0], u)), u, s);
    if r.Some? then r else SearchFrom(v, u, s, 1)
  }

  /** DBImpl::Get: memtable, then immutable memtable, then the version. */
  function Get(mem: seq<Entry>, imm: seq<Entry>, v: Version, u: UserKey, s: nat): Option<string>
  {
    var m := Probe(mem, u, s);
    if m.Some? then Visible(m)
    else
      var i := Probe(imm, u, s);
      if i.Some? then Visible(i) else Visible(VersionGet(v, u, s))
  }

  // ------------------------------------------------------------- the layout

  /** In level 0 a larger file number means newer data. */
  ghost predicate NumberOrder(fs: seq<File>) {
    (forall f, g :: f in fs && g in fs && f.number > g.number ==> Newer(f, g)) &&
    (forall f, g :: f in fs && g in fs && f.number == g.number ==> f == g)
  }

  /** Data of a shallower level is newer than data of a deeper one. */
  ghost predicate LevelOrder(v: Version)
  {
    forall a: nat, b: nat, f, g :: a < b < NUM_LEVELS && f in v[a] && g in v[b] ==> Newer(f, g)
  }

  ghost predicate VersionOk(v: Version) {
    
    (forall l: nat :: l < NUM_LEVELS ==> AllValid(v[l])) &&
    NumberOrder(v[0]) &&
    (forall l: nat :: 1 <= l < NUM_LEVELS ==> Disjoint(v[l])) &&
    LevelOrder(v)
  }

  ghost function EntriesOf(fs: seq<File>): set<Entry> {
    set f, e | f in fs && e in f.entries :: e
  }

  ghost function VersionEntries(v: Version): set<Entry> {
    set l, f, e | 0 <= l < |v| && f in v[l] && e in f.entries :: e
  }

  /** Everything the database holds. */
  ghost function Contents(mem: seq<Entry>, imm: seq<Entry>, v: Version): set<Entry> {
    (set e | e in mem) + (set e | e in imm) + VersionEntries(v)
  }

  ghost predicate NewerThanAll(es: seq<Entry>, older: set<Entry>) {
    forall e, d :: e in es && d in older ==> e.key.sn > d.key.sn
  }

  // ------------------------------------------------------------- correctness

  lemma {:induction false} CoveringSpec(fs: seq<File>, u: UserKey)
    ensures forall f :: f in Covering(fs, u) <==> f in fs && f.smallest.user <= u <= f.largest.user
  {
    if fs != [] { CoveringSpec(fs[1..], u); }
  }

  ghost predicate Descending(fs: seq<File>) {
    forall i, j :: 0 <= i < j < |fs| ==> fs[i].number >= fs[j].number
  }

  lemma {:induction false} InsertNewestFirstSpec(fs: seq<File>, f: File)
    requires Descending(fs)
    ensures Descending(InsertNewestFirst(fs, f))
    ensures forall g :: g in InsertNewestFirst(fs, f) <==> g in fs || g == f
  {
    if fs != [] && f.number <= fs[0].number {
      InsertNewestFirstSpec(fs[1..], f);
      var r := InsertNewestFirst(fs[1..], f);
      forall j | 0 <= j < |r| ensures fs[0].number >= r[j].number {
        assert r[j] in r;
        if r[j] != f { assert r[j] in fs[1..]; }
      }
      assert fs == [fs[0]] + fs[1..];
    }
  }

  lemma {:induction false} NewestFirstSpec(fs: seq<File>)
    ensures Descending(NewestFirst(fs))
    ensures forall g :: g in NewestFirst(fs) <==> g in fs
  {
    if fs != [] {
      NewestFirstSpec(fs[1..]);
      InsertNewestFirstSpec(NewestFirst(fs[1..]), fs[0]);
    }
  }

  /** r is the newest entry of u at s among a set of entries. */
  ghost predicate Answers(c: set<Entry>, u: UserKey, s: nat, r: Option<Entry>) {
    match r
    case None => forall e :: e in c ==> !Hit(e, u, s)
    case Some(n) => n in c && Hit(n, u, s) && forall e :: e in c && Hit(e, u, s) ==> e.key.sn <= n.key.sn
  }

  /** Searching two layers in turn answers for both when the first is newer for this key. */
  lemma LayersAnswer(a: set<Entry>, b: set<Entry>, u: UserKey, s: nat, ra: Option<Entry>, rb: Option<Entry>)
    requires Answers(a, u, s, ra) && Answers(b, u, s, rb)
    requires forall e, d :: e in a && d in b && d !in a && e.key.user == d.key.user == u ==> e.key.sn >= d.key.sn
    ensures Answers(a + b, u, s, if ra.Some? then ra else rb)
  {
  }

  lemma HeadIsNewest(fs: seq<File>, e: Entry, d: Entry)
    requires fs != [] && Descending(fs) && NumberOrder(fs)
    requires e in fs[0].entries && d in EntriesOf(fs[1..]) && d !in fs[0].entries && e.key.user == d.key.user
    ensures e.key.sn > d.key.sn
  {
    var g :| g in fs[1..] && d in g.entries;
    var j :| 0 <= j < |fs[1..]| && fs[1..][j] == g;
    assert fs[j + 1] == g && fs[0].number >= fs[j + 1].number;
    assert Newer(fs[0], g);
  }

  lemma {:induction false} FirstProbeAnswers(fs: seq<File>, u: UserKey, s: nat)
    requires AllValid(fs) && Descending(fs) && NumberOrder(fs)
    ensures Answers(EntriesOf(fs), u, s, FirstProbe(fs, u, s))
  {
    hide Probe, Sorted, NumberOrder, Descending, EntriesOf, Answers;
    if fs == [] {
      NoFilesNoAnswer(u, s);
    } else {
      var f, rest := fs[0], fs[1..];
      var mine := set e | e in f.entries;
      assert fs == [f] + rest;
      assert f in fs;
      TailOfDescending(fs);
      FirstProbeAnswers(rest, u, s);
      ProbeAnswers(f.entries, u, s);
      forall e, d | e in mine && d in EntriesOf(rest) && d !in mine && e.key.user == d.key.user == u
        ensures e.key.sn >= d.key.sn
      {
        HeadIsNewest(fs, e, d);
      }
      LayersAnswer(mine, EntriesOf(rest), u, s, Probe(f.entries, u, s), FirstProbe(rest, u, s));
      EntriesOfCons(f, rest);
    }
  }

  lemma NoFilesNoAnswer(u: UserKey, s: nat)
    ensures Answers(EntriesOf([]), u, s, None)
  {
  }

  lemma TailOfDescending(fs: seq<File>)
    requires AllValid(fs) && Descending(fs) && NumberOrder(fs) && fs != []
    ensures AllValid(fs[1..]) && Descending(fs[1..]) && NumberOrder(fs[1..])
  {
    hide ValidFile, Newer;
    assert forall f :: f in fs[1..] ==> f in fs;
  }

  lemma ProbeAnswers(es: seq<Entry>, u: UserKey, s: nat)
    requires Sorted(es)
    ensures Answers((set e | e in es), u, s, Probe(es, u, s))
  {
    hide Sorted, Probe;
    ProbeFindsNewest(es, u, s);
  }

  lemma EntriesOfCons(f: File, rest: seq<File>)
    ensures EntriesOf([f] + rest) == (set e | e in f.entries) + EntriesOf(rest)
  {
    assert forall g :: g in [f] + rest <==> g == f || g in rest;
  }

  lemma LastIsHit(f: File, g: File, u: UserKey, s: nat, e: Entry, last: Entry)
    requires ValidFile(f) && ValidFile(g) && Before(f, g) && !Less(f.largest, SeekKey(u, s))
    requires e in g.entries && Hit(e, u, s) && last == f.entries[|f.entries| - 1]
    ensures last in f.entries && Hit(last, u, s) && e.key.sn <= last.key.sn
  {
    hide Sorted;
    EntryInRange(g, e);
  }

  /** Only the first file reaching the seek key can hold an entry of u visible at s that is newest. */
  lemma ProbeLevelAnswers(fs: seq<File>, u: UserKey, s: nat)
    requires AllValid(fs) && Disjoint(fs)
    ensures Answers(EntriesOf(fs), u, s, ProbeLevel(fs, u, s))
  {
    hide Sorted, Probe, FirstReaching, ValidFile, Disjoint;
    var i := FirstReaching(fs, SeekKey(u, s));
    if i < |fs| {
      assert fs[i] in fs;
      ProbedEntry(fs, u, s, i);
    }
    forall e | e in EntriesOf(fs) && Hit(e, u, s)
      ensures ProbeLevel(fs, u, s).Some? && e.key.sn <= ProbeLevel(fs, u, s).value.key.sn
    {
      var f :| f in fs && e in f.entries;
      var j :| 0 <= j < |fs| && fs[j] == f;
      ProbedIsNewest(fs, u, s, j, e);
    }
  }

  lemma ProbedEntry(fs: seq<File>, u: UserKey, s: nat, i: nat)
    requires i < |fs| && ValidFile(fs[i]) && i == FirstReaching(fs, SeekKey(u, s))
    ensures var r := ProbeLevel(fs, u, s); r.Some? ==> r.value in fs[i].entries && Hit(r.value, u, s)
  {
    hide Sorted, Probe, FirstReaching;
    EndsAreEntries(fs[i]);
    ProbeFindsNewest(fs[i].entries, u, s);
  }

  lemma ProbedIsNewest(fs: seq<File>, u: UserKey, s: nat, j: nat, e: Entry)
    requires AllValid(fs) && Disjoint(fs) && j < |fs| && e in fs[j].entries && Hit(e, u, s)
    ensures ProbeLevel(fs, u, s).Some? && e.key.sn <= ProbeLevel(fs, u, s).value.key.sn
  {
    hide Sorted, Probe;
    var i := FirstReaching(fs, SeekKey(u, s));
    assert fs[j] in fs;
    EntryInRange(fs[j], e);
    SeekKeySkipsTooNew(e.key, u, s);
    SeekKeySkipsTooNew(fs[j].largest, u, s);
    assert i <= j;
    assert fs[i] in fs;
    EndsAreEntries(fs[i]);
    ProbeFindsNewest(fs[i].entries, u, s);
    if i < j {
      // the seek key falls in file i, so that file's last entry is a newer hit
      var last := fs[i].entries[|fs[i].entries| - 1];
      SeekKeySkipsTooNew(fs[i].largest, u, s);
      LastIsHit(fs[i], fs[j], u, s, e, last);
    }
  }

  ghost function EntriesFrom(v: Version, l: nat): set<Entry> {
    set k, f, e | l <= k < |v| && f in v[k] && e in f.entries :: e
  }

  lemma {:induction false} SearchFromAnswers(v: Version, u: UserKey, s: nat, l: nat)
    requires VersionOk(v) && 1 <= l <= NUM_LEVELS
    ensures Answers(EntriesFrom(v, l), u, s, SearchFrom(v, u, s, l))
    decreases NUM_LEVELS - l
  {
    hide ValidFile, ProbeLevel, Disjoint, NumberOrder;
    if l < NUM_LEVELS {
      SearchFromAnswers(v, u, s, l + 1);
      ProbeLevelAnswers(v[l], u, s);
      assert EntriesFrom(v, l) == EntriesOf(v[l]) + EntriesFrom(v, l + 1);
      forall e, d | e in EntriesOf(v[l]) && d in EntriesFrom(v, l + 1) && e.key.user == d.key.user
        ensures e.key.sn >= d.key.sn
      {
        var f :| f in v[l] && e in f.entries;
        var k: nat, g :| l + 1 <= k < |v| && g in v[k] && d in g.entries;
        assert Newer(f, g);
      }
      LayersAnswer(EntriesOf(v[l]), EntriesFrom(v, l + 1), u, s, ProbeLevel(v[l], u, s), SearchFrom(v, u, s, l + 1));
    }
  }

  /** Version::Get returns the newest entry the version holds for u at s. */
  lemma VersionGetAnswers(v: Version, u: UserKey, s: nat)
    requires VersionOk(v)
    ensures Answers(VersionEntries(v), u, s, VersionGet(v, u, s))
  {
    hide ValidFile, Disjoint, Less, FirstProbe, SearchFrom, Probe, Answers;
    var c := Covering(v[0], u);
    var fs := NewestFirst(c);
    CoveringSpec(v[0], u);
    NewestFirstSpec(c);
    FirstProbeAnswers(fs, u, s);
    SearchFromAnswers(v, u, s, 1);
    var a, b := EntriesOf(fs), EntriesFrom(v, 1);
    forall e, d | e in a && d in b && e.key.user == d.key.user ensures e.key.sn >= d.key.sn {
      var f :| f in fs && e in f.entries;
      var k: nat, g :| 1 <= k < |v| && g in v[k] && d in g.entries;
      assert Newer(f, g);
    }
    LayersAnswer(a, b, u, s, FirstProbe(fs, u, s), SearchFrom(v, u, s, 1));
    forall e | e in VersionEntries(v) && Hit(e, u, s) ensures e in a + b {
      var k: nat, f :| k < |v| && f in v[k] && e in f.entries;
      if k == 0 { EntryInRange(f, e); }
    }
    AnswersWithin(a + b, VersionEntries(v), u, s, VersionGet(v, u, s));
  }

  /** An answer over part of the entries is one over all when the rest has no hit. */
  lemma AnswersWithin(c: set<Entry>, d: set<Entry>, u: UserKey, s: nat, r: Option<Entry>)
    requires Answers(c, u, s, r) && c <= d && forall e :: e in d && Hit(e, u, s) ==> e in c
    ensures Answers(d, u, s, r)
  {
  }

  /** A read returns the view of everything the database holds. */
  lemma GetIsView(mem: seq<Entry>, imm: seq<Entry>, v: Version, h: Log, u: UserKey, s: nat)
    requires VersionOk(v) && Sorted(mem) && Sorted(imm)
    requires NewerThanAll(imm, VersionEntries(v))
    requires NewerThanAll(mem, (set e | e in imm) + VersionEntries(v))
    requires AllWrittenBy(Contents(mem, imm, v), h)
    ensures Get(mem, imm, v, u, s) == View(Contents(mem, imm, v), u, s)
  {
    hide VersionOk, Sorted, Probe, VersionGet, VersionEntries, AllWrittenBy;
    var m, i, w := (set e | e in mem), (set e | e in imm), VersionEntries(v);
    var pm, pi, pw := Probe(mem, u, s), Probe(imm, u, s), VersionGet(v, u, s);
    ProbeFindsNewest(mem, u, s);
    ProbeFindsNewest(imm, u, s);
    VersionGetAnswers(v, u, s);
    LayersAnswer(i, w, u, s, pi, pw);
    LayersAnswer(m, i + w, u, s, pm, if pi.Some? then pi else pw);
    var c := Contents(mem, imm, v);
    assert c == m + (i + w);
    var r := if pm.Some? then pm else if pi.Some? then pi else pw;
    if r.Some? { NewestIsUnique(c, h, u, s, r.value); } else { NothingIsUnique(c, u, s); }
  }

  // ------------------------------------------------------------- the loops of the code

  /** ForEachOverlapping with the Match callback of Version::Get: files are probed newest
      first, and the search ends with the first file that knows the key. */
  method VersionSearch(v: Version, u: UserKey, s: nat) returns (r: Option<Entry>)
    requires VersionOk(v)
    ensures r == VersionGet(v, u, s)
    ensures Answers(VersionEntries(v), u, s, r)
  {
    hide Answers, VersionEntries, Probe, ValidFile, NumberOrder, LevelOrder;
    VersionGetAnswers(v, u, s);
    var tmp := [];
    for i := 0 to |v[0]|
      invariant tmp == Covering(v[0][..i], u)
    {
      var f := v[0][i];
      CoveringSnoc(v[0][..i], f, u);
      assert v[0][..i + 1] == v[0][..i] + [f];
      if u >= f.smallest.user && u <= f.largest.user { tmp := tmp + [f]; }
    }
    assert v[0][..|v[0]|] == v[0];
    tmp := NewestFirst(tmp);
    for i := 0 to |tmp|
      invariant FirstProbe(tmp, u, s) == FirstProbe(tmp[i..], u, s)
    {
      r := Probe(tmp[i].entries, u, s);
      if r.Some? { return; }
      assert tmp[i..][1..] == tmp[i + 1..];
    }
    for l := 1 to NUM_LEVELS
      invariant VersionGet(v, u, s) == SearchFrom(v, u, s, l)
    {
      if |v[l]| != 0 {
        var index := FindFile(v[l], SeekKey(u, s));
        if index < |v[l]| {
          var f := v[l][index];
          if u >= f.smallest.user {
            r := Probe(f.entries, u, s);
            if r.Some? { return; }
          }
        }
      }
    }
    r := None;
  }

  lemma {:induction false} CoveringSnoc(fs: seq<File>, f: File, u: UserKey)
    ensures Covering(fs + [f], u) == Covering(fs, u) + (if f.smallest.user <= u <= f.largest.user then [f] else [])
  {
    if fs != [] {
      assert (fs + [f])[1..] == fs[1..] + [f];
      CoveringSnoc(fs[1..], f, u);
    } else {
      assert [f][1..] == [] && fs + [f] == [f];
    }
  }
}
