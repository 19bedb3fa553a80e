/** A version edit as bytes, and back. */
module VersionEdits {
  import opened Keys
  import opened Coding

  /** What one tag introduces. */
  datatype Item =
    | ComparatorName(name: Bytes)
    | LogNumber(n: nat)
    | NextFileNumber(n: nat)
    | LastSequence(n: nat)
    | CompactPointer(level: nat, key: Bytes)
    | DeletedFile(level: nat, number: nat)
    | NewFile(level: nat, number: nat, size: nat, smallest: Bytes, largest: Bytes)
    | PrevLogNumber(n: nat)

  /** The fields of an edit; None while the has_ flag is down. */
  datatype Edit = Edit(comparator: Option<Bytes>, logNumber: Option<nat>, prevLogNumber: Option<nat>, nextFileNumber: Option<nat>,
                       lastSequence: Option<nat>, compactPointers: seq<Item>, deletedFiles: seq<Item>, newFiles: seq<Item>)

  const FRESH := Edit(None, None, None, None, None, [], [], [])

  function Tag(x: Item): nat {
    match x
    case ComparatorName(_) => 1
    case LogNumber(_) => 2
    case NextFileNumber(_) => 3
    case LastSequence(_) => 4
    case CompactPointer(_, _) => 5
    case DeletedFile(_, _) => 6
    case NewFile(_, _, _, _, _) => 7
    case PrevLogNumber(_) => 9
  }

  /** Within the width of the fields; internal keys are not empty. */
  predicate ItemOk(x: Item) {
    match x
    case ComparatorName(name) => |name| < 0x1_0000_0000
    case CompactPointer(l, k) => l < NUM_LEVELS && KeyOk(k)
    case DeletedFile(l, n) => l < NUM_LEVELS && n < TWO_64
    case NewFile(l, n, s, a, b) => l < NUM_LEVELS && n < TWO_64 && s < TWO_64 && KeyOk(a) && KeyOk(b)
    case _ => x.n < TWO_64
  }

  /** A level that x names is one there is. */
  predicate LevelFits(x: Item) {
    x.CompactPointer? || x.DeletedFile? || x.NewFile? ==> x.level < NUM_LEVELS
  }

  predicate AllFit(xs: seq<Item>) {
    forall x :: x in xs ==> LevelFits(x)
  }

  predicate AllPointers(xs: seq<Item>) {
    forall x :: x in xs ==> x.CompactPointer?
  }

  predicate KeyOk(k: Bytes) {
    0 < |k| < 0x1_0000_0000
  }

  function Payload(x: Item): Bytes {
    match x
    case ComparatorName(name) => Prefixed(name)
    case CompactPointer(l, k) => Varint(l) + Prefixed(k)
    case DeletedFile(l, n) => Varint(l) + Varint(n)
    case NewFile(l, n, s, a, b) => Varint(l) + (Varint(n) + (Varint(s) + (Prefixed(a) + Prefixed(b))))
    case _ => Varint(x.n)
  }

  function ItemBytes(x: Item): Bytes {
    Varint(Tag(x)) + Payload(x)
  }

  function Encoding(xs: seq<Item>): Bytes {
    if xs == [] then [] else Encoding(xs[..|xs| - 1]) + ItemBytes(xs[|xs| - 1])
  }

  // ------------------------------------------------------------ edits as lists of items

  /** The item of kind k, if there is one. */
  function OfKind(e: Edit, k: nat): seq<Item> {
    if k == 1 && e.comparator.Some? then [ComparatorName(e.comparator.value)]
    else if k == 2 && e.logNumber.Some? then [LogNumber(e.logNumber.value)]
    else if k == 3 && e.prevLogNumber.Some? then [PrevLogNumber(e.prevLogNumber.value)]
    else if k == 4 && e.nextFileNumber.Some? then [NextFileNumber(e.nextFileNumber.value)]
    else if k == 5 && e.lastSequence.Some? then [LastSequence(e.lastSequence.value)]
    else []
  }

  /** Those of the first k kinds. */
  function Front(e: Edit, k: nat): seq<Item> {
    if k == 0 then [] else Front(e, k - 1) + OfKind(e, k)
  }

  /** Those of the fields that hold one value. */
  function Singles(e: Edit): seq<Item> {
    Front(e, 5)
  }

  /** The items of an edit, in the order they are written. */
  function Items(e: Edit): seq<Item> {
    Singles(e) + e.compactPointers + e.deletedFiles + e.newFiles
  }

  /** std::set<std::pair<int, uint64_t>>'s order. */
  predicate DeletedBefore(x: Item, y: Item)
    requires x.DeletedFile? && y.DeletedFile?
  {
    x.level < y.level || (x.level == y.level && x.number < y.number)
  }

  /** Inserting into the ordered set of deleted files. */
  function Inserted(s: seq<Item>, x: Item): seq<Item>
    requires x.DeletedFile? && AllDeleted(s)
  {
    if s == [] || DeletedBefore(x, s[0]) then [x] + s
    else if x == s[0] then s
    else [s[0]] + Inserted(s[1..], x)
  }

  predicate AllDeleted(s: seq<Item>) {
    forall x :: x in s ==> x.DeletedFile?
  }

  ghost predicate EditOk(e: Edit) {
    (forall x :: x in Items(e) ==> ItemOk(x)) && AllDeleted(e.deletedFiles) &&
    (forall i, j :: 0 <= i < j < |e.deletedFiles| ==> DeletedBefore(e.deletedFiles[i], e.deletedFiles[j])) &&
    (forall x :: x in e.compactPointers ==> x.CompactPointer?) && (forall x :: x in e.newFiles ==> x.NewFile?)
  }

  /** What reading x does to the fields. */
  function Applied(e: Edit, x: Item): Edit {
    match x
    case ComparatorName(name) => e.(comparator := Some(name))
    case LogNumber(n) => e.(logNumber := Some(n))
    case PrevLogNumber(n) => e.(prevLogNumber := Some(n))
    case NextFileNumber(n) => e.(nextFileNumber := Some(n))
    case LastSequence(n) => e.(lastSequence := Some(n))
    case CompactPointer(_, _) => e.(compactPointers := e.compactPointers + [x])
    case DeletedFile(_, _) => if AllDeleted(e.deletedFiles) then e.(deletedFiles := Inserted(e.deletedFiles, x)) else e
    case NewFile(_, _, _, _, _) => e.(newFiles := e.newFiles + [x])
  }

  function AllApplied(e: Edit, xs: seq<Item>): Edit {
    if xs == [] then e else Applied(AllApplied(e, xs[..|xs| - 1]), xs[|xs| - 1])
  }

  lemma {:induction false} AppliedInTurn(e: Edit, xs: seq<Item>, ys: seq<Item>)
    ensures AllApplied(e, xs + ys) == AllApplied(AllApplied(e, xs), ys)
  {
    hide Applied;
    if ys == [] {
      assert xs + ys == xs;
    } else {
      var n := |ys| - 1;
      assert (xs + ys)[..|xs| + n] == xs + ys[..n];
      AppliedInTurn(e, xs, ys[..n]);
    }
  }

  lemma {:induction false} PointersApplied(e: Edit, xs: seq<Item>)
    requires forall x :: x in xs ==> x.CompactPointer?
    ensures AllApplied(e, xs) == e.(compactPointers := e.compactPointers + xs)
  {
    if xs != [] {
      var n := |xs| - 1;
      PointersApplied(e, xs[..n]);
      assert xs[n] in xs && e.compactPointers + xs[..n] + [xs[n]] == e.compactPointers + xs;
    } else {
      assert e.compactPointers + xs == e.compactPointers;
    }
  }

  lemma {:induction false} NewFilesApplied(e: Edit, xs: seq<Item>)
    requires forall x :: x in xs ==> x.NewFile?
    ensures AllApplied(e, xs) == e.(newFiles := e.newFiles + xs)
  {
    if xs != [] {
      var n := |xs| - 1;
      NewFilesApplied(e, xs[..n]);
      assert xs[n] in xs && e.newFiles + xs[..n] + [xs[n]] == e.newFiles + xs;
    } else {
      assert e.newFiles + xs == e.newFiles;
    }
  }

  lemma {:induction false} InsertedLast(s: seq<Item>, x: Item)
    requires x.DeletedFile? && AllDeleted(s) && forall i :: 0 <= i < |s| ==> DeletedBefore(s[i], x)
    ensures Inserted(s, x) == s + [x]
  {
    if s != [] { InsertedLast(s[1..], x); }
  }

  lemma {:induction false} DeletedApplied(e: Edit, xs: seq<Item>)
    requires e.deletedFiles == [] && AllDeleted(xs)
    requires forall i, j :: 0 <= i < j < |xs| ==> DeletedBefore(xs[i], xs[j])
    ensures AllApplied(e, xs) == e.(deletedFiles := xs)
  {
    if xs != [] {
      var n := |xs| - 1;
      DeletedApplied(e, xs[..n]);
      InsertedLast(xs[..n], xs[n]);
      assert xs == xs[..n] + [xs[n]];
    }
  }

  lemma FewApplied(e: Edit, xs: seq<Item>)
    ensures xs == [] ==> AllApplied(e, xs) == e
    ensures |xs| == 1 ==> AllApplied(e, xs) == Applied(e, xs[0])
  {
    if |xs| == 1 { assert xs[..0] == []; }
  }

  lemma SinglesApplied(e: Edit)
    ensures AllApplied(FRESH, Singles(e)) == e.(compactPointers := [], deletedFiles := [], newFiles := [])
  {
    FrontApplied(e, 5);
  }

  /** The fields of e that hold one value, of the first k kinds. */
  function Partly(e: Edit, k: nat): Edit {
    Edit(if k > 0 then e.comparator else None, if k > 1 then e.logNumber else None, if k > 2 then e.prevLogNumber else None,
         if k > 3 then e.nextFileNumber else None, if k > 4 then e.lastSequence else None, [], [], [])
  }

  lemma {:induction false} FrontApplied(e: Edit, k: nat)
    requires k <= 5
    ensures AllApplied(FRESH, Front(e, k)) == Partly(e, k)
  {
    hide AllApplied, Front, OfKind, Partly;
    if k == 0 {
      NothingApplied(e);
    } else {
      FrontApplied(e, k - 1);
      FrontStep(e, k);
      AppliedInTurn(FRESH, Front(e, k - 1), OfKind(e, k));
      PartlyStep(e, k);
    }
  }

  lemma NothingApplied(e: Edit)
    ensures AllApplied(FRESH, Front(e, 0)) == Partly(e, 0)
  {
  }

  lemma PartlyStep(e: Edit, k: nat)
    requires 1 <= k <= 5
    ensures AllApplied(Partly(e, k - 1), OfKind(e, k)) == Partly(e, k)
  {
    hide AllApplied;
    FewApplied(Partly(e, k - 1), OfKind(e, k));
  }

  /** Reading all items of an edit makes the edit. */
  lemma ItemsMakeEdit(e: Edit)
    requires EditOk(e)
    ensures AllApplied(FRESH, Items(e)) == e
  {
    hide AllApplied, Singles, FRESH;
    var x := Singles(e);
    AppliedInTurn(FRESH, x + e.compactPointers + e.deletedFiles, e.newFiles);
    AppliedInTurn(FRESH, x + e.compactPointers, e.deletedFiles);
    AppliedInTurn(FRESH, x, e.compactPointers);
    SinglesApplied(e);
    var s := e.(compactPointers := [], deletedFiles := [], newFiles := []);
    PointersApplied(s, e.compactPointers);
    assert [] + e.compactPointers == e.compactPointers && [] + e.newFiles == e.newFiles;
    s := e.(deletedFiles := [], newFiles := []);
    DeletedApplied(s, e.deletedFiles);
    s := e.(newFiles := []);
    NewFilesApplied(s, e.newFiles);
  }

  // ------------------------------------------------------------ writing items

  /** One item: its tag, then what belongs to it. */
  method PutItem(x: Item) returns (r: Bytes)
    requires ItemOk(x)
    ensures r == ItemBytes(x)
  {
    hide Varint;
    var tag := EncodeVarint32(Tag(x));
    match x {
    case ComparatorName(name) =>
      r := PutString(name);
    case CompactPointer(level, key) =>
      var a := EncodeVarint32(level);
      var b := PutString(key);
      r := a + b;
    case DeletedFile(level, number) =>
      var a := EncodeVarint32(level);
      var b := EncodeVarint64(number);
      r := a + b;
    case NewFile(level, number, size, smallest, largest) =>
      var a := EncodeVarint32(level);
      var b := EncodeVarint64(number);
      var c := EncodeVarint64(size);
      var d := PutString(smallest);
      var e := PutString(largest);
      r := a + (b + (c + (d + e)));
    case _ =>
      r := EncodeVarint64(x.n);
    }
    r := tag + r;
  }

  method PutString(s: Bytes) returns (r: Bytes)
    requires |s| < 0x1_0000_0000
    ensures r == Prefixed(s)
  {
    var n := EncodeVarint32(|s|);
    r := n + s;
  }

  // ------------------------------------------------------------ reading items

  method GetLevel(b: Bytes, p: nat, ghost v: nat) returns (r: Option<nat>, q: nat)
    requires p <= |b|
    ensures p <= q <= |b| && (r.Some? ==> p < q && r.value < NUM_LEVELS)
    ensures v < NUM_LEVELS && StandsAt(b, p, |b|, Varint(v)) ==> r == Some(v) && q == p + |Varint(v)|
  {
    hide Varint;
    var n;
    n, q := GetVarint32(b, p, |b|, if v < NUM_LEVELS then v else 0);
    r := if n.Some? && n.value < NUM_LEVELS then Some(n.value) else None;
  }

  method GetNumber(b: Bytes, p: nat, ghost v: nat) returns (r: Option<nat>, q: nat)
    requires p <= |b|
    ensures p <= q <= |b| && (r.Some? ==> p < q && r.value < TWO_64)
    ensures v < TWO_64 && StandsAt(b, p, |b|, Varint(v)) ==> r == Some(v) && q == p + |Varint(v)|
  {
    hide Varint;
    r, q := GetVarint64(b, p, |b|, v);
  }

  method GetInternalKey(b: Bytes, p: nat, ghost k: Bytes) returns (r: Option<Bytes>, q: nat)
    requires p <= |b|
    ensures p <= q <= |b| && (r.Some? ==> p < q && r.value != [])
    ensures KeyOk(k) && StandsAt(b, p, |b|, Prefixed(k)) ==> r == Some(k) && q == p + |Prefixed(k)|
  {
    hide Prefixed;
    r, q := GetLengthPrefixed(b, p, |b|, k);
    if r == Some([]) {
      r := None;
    }
  }

  method GetDeletedFile(b: Bytes, p: nat, ghost level: nat, ghost number: nat) returns (r: Option<Item>, q: nat)
    requires p <= |b|
    ensures p <= q <= |b| && (r.Some? ==> p < q && r.value.DeletedFile? && LevelFits(r.value))
    ensures level < NUM_LEVELS && number < TWO_64 && StandsAt(b, p, |b|, Varint(level) + Varint(number)) ==>
      r == Some(DeletedFile(level, number)) && q == p + |Varint(level) + Varint(number)|
  {
    hide Varint, StandsAt;
    StandsInTurn(b, p, |b|, Varint(level), Varint(number));
    r := None;
    var l, n;
    l, q := GetLevel(b, p, level);
    if l.None? { return; }
    n, q := GetNumber(b, q, number);
    if n.None? { return; }
    r := Some(DeletedFile(l.value, n.value));
  }

  method GetCompactPointer(b: Bytes, p: nat, ghost level: nat, ghost key: Bytes) returns (r: Option<Item>, q: nat)
    requires p <= |b|
    ensures p <= q <= |b| && (r.Some? ==> p < q && r.value.CompactPointer? && LevelFits(r.value))
    ensures level < NUM_LEVELS && KeyOk(key) && StandsAt(b, p, |b|, Varint(level) + Prefixed(key)) ==>
      r == Some(CompactPointer(level, key)) && q == p + |Varint(level) + Prefixed(key)|
  {
    hide Varint, StandsAt, Prefixed;
    StandsInTurn(b, p, |b|, Varint(level), Prefixed(key));
    r := None;
    var l, k;
    l, q := GetLevel(b, p, level);
    if l.None? { return; }
    k, q := GetInternalKey(b, q, key);
    if k.None? { return; }
    r := Some(CompactPointer(l.value, k.value));
  }

  method GetNewFile(b: Bytes, p: nat, ghost x: Item) returns (r: Option<Item>, q: nat)
    requires p <= |b|
    ensures p <= q <= |b| && (r.Some? ==> p < q && r.value.NewFile? && LevelFits(r.value))
    ensures x.NewFile? && ItemOk(x) && StandsAt(b, p, |b|, Payload(x)) ==> r == Some(x) && q == p + |Payload(x)|
  {
    hide Varint, StandsAt, Prefixed;
    ghost var y := if x.NewFile? then x else NewFile(0, 0, 0, [], []);
    ghost var v1, v2, v3, v4, v5 := Varint(y.level), Varint(y.number), Varint(y.size), Prefixed(y.smallest), Prefixed(y.largest);
    StandsInTurn(b, p, |b|, v1, v2 + (v3 + (v4 + v5)));
    StandsInTurn(b, p + |v1|, |b|, v2, v3 + (v4 + v5));
    StandsInTurn(b, p + |v1| + |v2|, |b|, v3, v4 + v5);
    StandsInTurn(b, p + |v1| + |v2| + |v3|, |b|, v4, v5);
    r := None;
    var l, n, s, k, m;
    l, q := GetLevel(b, p, y.level);
    if l.None? { return; }
    n, q := GetNumber(b, q, y.number);
    if n.None? { return; }
    s, q := GetNumber(b, q, y.size);
    if s.None? { return; }
    k, q := GetInternalKey(b, q, y.smallest);
    if k.None? { return; }
    m, q := GetInternalKey(b, q, y.largest);
    if m.None? { return; }
    r := Some(NewFile(l.value, n.value, s.value, k.value, m.value));
  }

  /** What follows a tag; nothing for an unknown tag or when what belongs to it is not there. */
  method GetItem(b: Bytes, p: nat, tag: nat, ghost x: Item) returns (r: Option<Item>, q: nat)
    requires p <= |b|
    ensures p <= q <= |b| && (r.Some? ==> p < q && Tag(r.value) == tag && LevelFits(r.value))
    ensures ItemOk(x) && tag == Tag(x) && StandsAt(b, p, |b|, Payload(x)) ==> r == Some(x) && q == p + |Payload(x)|
  {
    hide Varint, StandsAt, Prefixed;
    r, q := None, p;
    var n: Option<nat>;
    match tag
    case 1 =>
      var name;
      name, q := GetLengthPrefixed(b, p, |b|, if x.ComparatorName? then x.name else []);
      r := if name.Some? then Some(ComparatorName(name.value)) else None;
    case 2 =>
      n, q := GetNumber(b, p, if x.LogNumber? then x.n else 0);
      r := if n.Some? then Some(LogNumber(n.value)) else None;
    case 9 =>
      n, q := GetNumber(b, p, if x.PrevLogNumber? then x.n else 0);
      r := if n.Some? then Some(PrevLogNumber(n.value)) else None;
    case 3 =>
      n, q := GetNumber(b, p, if x.NextFileNumber? then x.n else 0);
      r := if n.Some? then Some(NextFileNumber(n.value)) else None;
    case 4 =>
      n, q := GetNumber(b, p, if x.LastSequence? then x.n else 0);
      r := if n.Some? then Some(LastSequence(n.value)) else None;
    case 5 =>
      r, q := GetCompactPointer(b, p, if x.CompactPointer? then x.level else 0, if x.CompactPointer? then x.key else []);
    case 6 =>
      r, q := GetDeletedFile(b, p, if x.DeletedFile? then x.level else 0, if x.DeletedFile? then x.number else 0);
    case 7 =>
      r, q := GetNewFile(b, p, x);
    case _ =>
  }

  // ------------------------------------------------------------ the edit

  lemma {:induction false} EncodingSplits(xs: seq<Item>, i: nat)
    requires i < |xs|
    ensures Encoding(xs[..i + 1]) == Encoding(xs[..i]) + ItemBytes(xs[i])
  {
    hide ItemBytes;
    assert xs[..i + 1][..i] == xs[..i];
  }

  lemma EncodingGrows(xs: seq<Item>, i: nat)
    requires i <= |xs|
    ensures Encoding(xs[..i]) <= Encoding(xs)
    decreases |xs| - i
  {
    hide ItemBytes;
    if i == |xs| {
      assert xs[..i] == xs;
    } else {
      EncodingSplits(xs, i);
      EncodingGrows(xs, i + 1);
    }
  }

  /** Item i stands after the encoding of those before it. */
  lemma ItemStands(xs: seq<Item>, i: nat)
    requires i < |xs|
    ensures var b, p := Encoding(xs), |Encoding(xs[..i])|;
      StandsAt(b, p, |b|, Varint(Tag(xs[i]))) && StandsAt(b, p + |Varint(Tag(xs[i]))|, |b|, Payload(xs[i])) &&
      |Encoding(xs[..i + 1])| == p + |Varint(Tag(xs[i]))| + |Payload(xs[i])|
  {
    hide Encoding, Varint, Payload, Tag;
    EncodingSplits(xs, i);
    EncodingGrows(xs, i + 1);
    var b, p, upto := Encoding(xs), |Encoding(xs[..i])|, Encoding(xs[..i + 1]);
    assert b[..|upto|] == upto;
    assert b[p..|upto|] == upto[p..] == ItemBytes(xs[i]);
    StandsInTurn(b, p, |b|, Varint(Tag(xs[i])), Payload(xs[i]));
  }

  /** Reading an item puts no other items in the lists. */
  lemma AppliedFits(e: Edit, x: Item)
    requires LevelFits(x) && AllDeleted(e.deletedFiles)
    ensures AllFit(e.deletedFiles) ==> AllFit(Applied(e, x).deletedFiles)
    ensures AllFit(e.newFiles) ==> AllFit(Applied(e, x).newFiles)
    ensures AllFit(e.compactPointers) && AllPointers(e.compactPointers) ==>
      AllFit(Applied(e, x).compactPointers) && AllPointers(Applied(e, x).compactPointers)
  {
    if x.DeletedFile? { InsertedFits(e.deletedFiles, x); }
  }

  lemma {:induction false} InsertedFits(s: seq<Item>, x: Item)
    requires x.DeletedFile? && AllDeleted(s) && LevelFits(x)
    ensures AllFit(s) ==> AllFit(Inserted(s, x))
  {
    if s != [] {
      assert s == [s[0]] + s[1..];
      InsertedFits(s[1..], x);
    }
  }

  class VersionEdit {
    var hasComparator: bool
    var comparator: Bytes
    var hasLogNumber: bool
    var logNumber: nat
    var hasPrevLogNumber: bool
    var prevLogNumber: nat
    var hasNextFileNumber: bool
    var nextFileNumber: nat
    var hasLastSequence: bool
    var lastSequence: nat
    var compactPointers: seq<Item>
    var deletedFiles: seq<Item>
    var newFiles: seq<Item>

    function Contents(): Edit
      reads this
    {
      Edit(if hasComparator then Some(comparator) else None, if hasLogNumber then Some(logNumber) else None,
           if hasPrevLogNumber then Some(prevLogNumber) else None, if hasNextFileNumber then Some(nextFileNumber) else None,
           if hasLastSequence then Some(lastSequence) else None, compactPointers, deletedFiles, newFiles)
    }

    constructor ()
      ensures Contents() == FRESH
    {
      hasComparator, hasLogNumber, hasPrevLogNumber, hasNextFileNumber, hasLastSequence := false, false, false, false, false;
      comparator, logNumber, prevLogNumber, nextFileNumber, lastSequence := [], 0, 0, 0, 0;
      compactPointers, deletedFiles, newFiles := [], [], [];
    }

    /** Compaction pointers stay. */
    method Clear()
      modifies this
      ensures Contents() == FRESH.(compactPointers := old(compactPointers))
    {
      comparator, logNumber, prevLogNumber, lastSequence, nextFileNumber := [], 0, 0, 0, 0;
      hasComparator, hasLogNumber, hasPrevLogNumber, hasNextFileNumber, hasLastSequence := false, false, false, false, false;
      deletedFiles := [];
      newFiles := [];
    }

    /** The fields that are set, then the lists, each item under its tag. */
    method EncodeTo() returns (dst: Bytes)
      requires EditOk(Contents())
      ensures dst == Encoding(Items(Contents()))
    {
      hide Encoding, EditOk, Items, Singles;
      var e := Contents();
      ghost var xs := Items(e);
      ghost var n := |Singles(e)|;
      ItemsInTurn(e);
      ItemsFit(e);
      dst := PutSingles(e);
      dst := PutAll(dst, compactPointers, xs, n);
      n := n + |compactPointers|;
      dst := PutAll(dst, deletedFiles, xs, n);
      n := n + |deletedFiles|;
      dst := PutAll(dst, newFiles, xs, n);
      assert xs[..|xs|] == xs;
    }

    /** Reads items until nothing more begins with a tag; then nothing must be left. */
    method DecodeFrom(src: Bytes, ghost e: Edit) returns (ok: bool)
      modifies this
      ensures EditOk(e) && src == Encoding(Items(e)) && old(compactPointers) == [] ==> ok && Contents() == e
      ensures AllPointers(old(compactPointers)) && AllFit(old(compactPointers)) ==>
        AllPointers(compactPointers) && AllFit(compactPointers) && AllFit(deletedFiles) && AllFit(newFiles)
    {
      hide Encoding, Varint, Payload, Items, StandsAt, VarintAt, Tag, Prefixed;
      Clear();
      ghost var xs := Items(e);
      ghost var near := EditOk(e) && src == Encoding(xs) && compactPointers == [];
      ghost var n := 0;
      var p := 0;
      NothingEncoded(xs);
      while true
        invariant p <= |src|
        invariant near ==> n <= |xs| && p == |Encoding(xs[..n])| && Contents() == AllApplied(FRESH, xs[..n])
        invariant AllDeleted(deletedFiles) && AllFit(deletedFiles) && AllFit(newFiles)
        invariant AllPointers(old(compactPointers)) && AllFit(old(compactPointers)) ==> AllPointers(compactPointers) && AllFit(compactPointers)
        decreases |src| - p
      {
        if near && n < |xs| {
          ItemStands(xs, n);
          OneMoreApplied(xs, n);
          TagFits(src, p, xs[n]);
        }
        if near { AllRead(xs, n); }
        var tag, q := GetVarint32(src, p, |src|, if near && n < |xs| then Tag(xs[n]) else 0);
        if tag.None? {
          break;
        }
        var x;
        x, p := GetItem(src, q, tag.value, if near && n < |xs| then xs[n] else LogNumber(0));
        if x.None? {
          return false;
        }
        AppliedFits(Contents(), x.value);
        Apply(x.value);
        n := n + 1;
      }
      if near {
        assert xs[..|xs|] == xs;
        ItemsMakeEdit(e);
      }
      ok := p == |src|;
    }

    method Apply(x: Item)
      requires AllDeleted(deletedFiles)
      modifies this
      ensures Contents() == Applied(old(Contents()), x) && AllDeleted(deletedFiles)
    {
      hide Inserted;
      if x.CompactPointer? || x.DeletedFile? || x.NewFile? {
        ApplyToList(x);
      } else {
        ApplyToField(x);
      }
    }

    method ApplyToField(x: Item)
      requires !x.CompactPointer? && !x.DeletedFile? && !x.NewFile?
      modifies this
      ensures Contents() == Applied(old(Contents()), x)
    {
      hide AllDeleted, Inserted;
      match x
      case ComparatorName(name) => comparator, hasComparator := name, true;
      case LogNumber(n) => logNumber, hasLogNumber := n, true;
      case PrevLogNumber(n) => prevLogNumber, hasPrevLogNumber := n, true;
      case NextFileNumber(n) => nextFileNumber, hasNextFileNumber := n, true;
      case LastSequence(n) => lastSequence, hasLastSequence := n, true;
    }

    method ApplyToList(x: Item)
      requires AllDeleted(deletedFiles) && (x.CompactPointer? || x.DeletedFile? || x.NewFile?)
      modifies this`compactPointers, this`deletedFiles, this`newFiles
      ensures Contents() == Applied(old(Contents()), x) && AllDeleted(deletedFiles)
    {
      hide AllDeleted, Inserted;
      match x
      case CompactPointer(_, _) => compactPointers := compactPointers + [x];
      case DeletedFile(_, _) =>
        InsertedDeleted(deletedFiles, x);
        deletedFiles := Inserted(deletedFiles, x);
      case NewFile(_, _, _, _, _) => newFiles := newFiles + [x];
    }
  }

  lemma {:induction false} InsertedDeleted(s: seq<Item>, x: Item)
    requires x.DeletedFile? && AllDeleted(s)
    ensures AllDeleted(Inserted(s, x))
  {
    if s != [] { InsertedDeleted(s[1..], x); }
  }

  lemma NothingEncoded(xs: seq<Item>)
    ensures Encoding(xs[..0]) == [] && AllApplied(FRESH, xs[..0]) == FRESH
  {
  }

  lemma OneMoreApplied(xs: seq<Item>, n: nat)
    requires n < |xs|
    ensures AllApplied(FRESH, xs[..n + 1]) == Applied(AllApplied(FRESH, xs[..n]), xs[n])
  {
    hide Applied;
    assert xs[..n + 1][..n] == xs[..n];
  }

  lemma TagFits(b: Bytes, p: nat, x: Item)
    ensures Tag(x) < 0x1_0000_0000
    ensures StandsAt(b, p, |b|, Varint(Tag(x))) ==> VarintAt(b, p, |b|, Tag(x))
  {
    hide Varint;
  }

  /** The bytes are used up just when the items are. */
  lemma AllRead(xs: seq<Item>, n: nat)
    requires n <= |xs|
    ensures |Encoding(xs[..n])| == |Encoding(xs)| <==> n == |xs|
  {
    if n == |xs| {
      assert xs[..n] == xs;
    } else {
      hide Encoding, Varint, Payload, Tag;
      ItemStands(xs, n);
      EncodingGrows(xs, n + 1);
      assert |Varint(Tag(xs[n]))| >= 1;
    }
  }

  lemma ItemsFit(e: Edit)
    requires EditOk(e)
    ensures forall x :: x in Items(e) ==> ItemOk(x)
  {
  }

  /** The fields that hold one value, those that are set. */
  method PutSingles(e: Edit) returns (dst: Bytes)
    requires EditOk(e)
    ensures dst == Encoding(Singles(e))
  {
    hide Encoding, ItemBytes, ItemOk, EditOk, Front;
    SinglesFit(e);
    NothingEncoded([]);
    FrontStep(e, 1);
    FrontStep(e, 2);
    FrontStep(e, 3);
    FrontStep(e, 4);
    FrontStep(e, 5);
    dst := PutIf([], e.comparator.Some?, if e.comparator.Some? then ComparatorName(e.comparator.value) else NO_ITEM, []);
    dst := PutIf(dst, e.logNumber.Some?, if e.logNumber.Some? then LogNumber(e.logNumber.value) else NO_ITEM, Front(e, 1));
    dst := PutIf(dst, e.prevLogNumber.Some?, if e.prevLogNumber.Some? then PrevLogNumber(e.prevLogNumber.value) else NO_ITEM, Front(e, 2));
    dst := PutIf(dst, e.nextFileNumber.Some?, if e.nextFileNumber.Some? then NextFileNumber(e.nextFileNumber.value) else NO_ITEM, Front(e, 3));
    dst := PutIf(dst, e.lastSequence.Some?, if e.lastSequence.Some? then LastSequence(e.lastSequence.value) else NO_ITEM, Front(e, 4));
  }

  const NO_ITEM := LogNumber(0)

  lemma FrontStep(e: Edit, k: nat)
    requires k > 0
    ensures Front(e, k) == Front(e, k - 1) + OfKind(e, k) && Front(e, 0) == []
  {
  }

  /** One item, when its flag is up. */
  method PutIf(dst: Bytes, has: bool, x: Item, ghost done: seq<Item>) returns (r: Bytes)
    requires dst == Encoding(done) && (has ==> ItemOk(x))
    ensures r == Encoding(done + if has then [x] else [])
  {
    hide Encoding, ItemBytes, ItemOk;
    r := dst;
    assert done + [] == done;
    if has {
      ghost var xs := done + [x];
      assert xs[..|done|] == done && xs[..|done| + 1] == xs;
      EncodingSplits(xs, |done|);
      var b := PutItem(x);
      r := r + b;
    }
  }

  lemma SinglesFit(e: Edit)
    requires EditOk(e)
    ensures e.comparator.Some? ==> ItemOk(ComparatorName(e.comparator.value))
    ensures e.logNumber.Some? ==> ItemOk(LogNumber(e.logNumber.value))
    ensures e.prevLogNumber.Some? ==> ItemOk(PrevLogNumber(e.prevLogNumber.value))
    ensures e.nextFileNumber.Some? ==> ItemOk(NextFileNumber(e.nextFileNumber.value))
    ensures e.lastSequence.Some? ==> ItemOk(LastSequence(e.lastSequence.value))
  {
    hide ItemOk, AllDeleted;
    forall k | 1 <= k <= 5 ensures forall x :: x in OfKind(e, k) ==> ItemOk(x) { LastInItems(e, k, 5); }
    assert e.comparator.Some? ==> ComparatorName(e.comparator.value) in OfKind(e, 1);
    assert e.logNumber.Some? ==> LogNumber(e.logNumber.value) in OfKind(e, 2);
    assert e.prevLogNumber.Some? ==> PrevLogNumber(e.prevLogNumber.value) in OfKind(e, 3);
    assert e.nextFileNumber.Some? ==> NextFileNumber(e.nextFileNumber.value) in OfKind(e, 4);
    assert e.lastSequence.Some? ==> LastSequence(e.lastSequence.value) in OfKind(e, 5);
  }

  lemma {:induction false} LastInItems(e: Edit, k: nat, m: nat)
    requires 1 <= k <= m <= 5
    ensures forall x :: x in OfKind(e, k) ==> x in Front(e, m)
    ensures m == 5 ==> forall x :: x in OfKind(e, k) ==> x in Items(e)
  {
    hide OfKind;
    if k < m { LastInItems(e, k, m - 1); }
  }

  /** Where the parts of an edit are among its items. */
  lemma ItemsInTurn(e: Edit)
    ensures var xs, a, b, c := Items(e), |Singles(e)|, |e.compactPointers|, |e.deletedFiles|;
      |xs| == a + b + c + |e.newFiles| && xs[..a] == Singles(e) && xs[a..a + b] == e.compactPointers &&
      xs[a + b..a + b + c] == e.deletedFiles && xs[a + b + c..] == e.newFiles
  {
  }

  /** Items one after another. */
  method PutAll(dst: Bytes, items: seq<Item>, ghost xs: seq<Item>, ghost n: nat) returns (r: Bytes)
    requires n + |items| <= |xs| && xs[n..n + |items|] == items && dst == Encoding(xs[..n])
    requires forall x :: x in xs ==> ItemOk(x)
    ensures r == Encoding(xs[..n + |items|])
  {
    hide Encoding, ItemBytes, ItemOk;
    r := dst;
    for i := 0 to |items|
      invariant r == Encoding(xs[..n + i])
    {
      assert items[i] == xs[n..n + |items|][i] == xs[n + i];
      EncodingSplits(xs, n + i);
      var b := PutItem(items[i]);
      r := r + b;
    }
  }
}
