/** Encodings as other programs may write them: fields in any order, arrays packed, split or unpacked, and fields in
    between that the descriptors do not have, in the message and in the messages inside it. */
module PbForeign {
  import opened Coding
  import opened PbFormat
  import opened PbStreams
  import opened PbRecords

  datatype Unknown = Unknown(tag: nat, wireType: nat, payload: Bytes)

  /** A record that can be skipped: no field has its tag, and its payload is one of its wire type. */
  ghost predicate Skippable(fs: seq<Field>, u: Unknown) {
    1 <= u.tag < MAX_TAG && Payloads(u.wireType, u.payload) && forall i :: 0 <= i < |fs| ==> fs[i].tag != u.tag
  }

  /** The bytes r begin with that tag and payload. */
  ghost predicate Leads(r: Bytes, tag: nat, wireType: nat, p: Bytes) {
    Starts(r, TagBytes(tag, wireType)) && Starts(Past(r, TagBytes(tag, wireType)), p)
  }

  function Beyond(r: Bytes, tag: nat, wireType: nat, p: Bytes): (rest: Bytes)
    ensures r != [] ==> |rest| < |r|
  {
    NotEmptyTag(tag, wireType);
    Past(Past(r, TagBytes(tag, wireType)), p)
  }

  /** A record of a field: from n items on it brings those up to n', any number of them when it is packed, and
      otherwise one item, or the value. */
  ghost predicate Part(f: Field, s: Slot, n: nat, wireType: nat, p: Bytes, n': nat)
    decreases f, 0
  {
    match s
    case One(v) => n == 0 && n' == 1 && wireType == WireType(f.kind) && ValueIs(f.kind, v, p)
    case Opt(has, v) => has && n == 0 && n' == 1 && wireType == WireType(f.kind) && ValueIs(f.kind, v, p)
    case Many(items) =>
      if wireType == 2 && Packable(f.kind) then n <= n' <= |items| && p == Prefixed(ItemBytes(f.kind, items[n..n']))
      else wireType == WireType(f.kind) && n < |items| && n' == n + 1 && ValueIs(f.kind, items[n], p)
  }

  ghost predicate ValueIs(k: Kind, v: Value, p: Bytes)
    decreases k, 0
  {
    if k.Submessage? && v.Msg? && |v.slots| == |k.fields| then
      exists b: Bytes :: p == Prefixed(b) && Encodes(k.fields, v.slots, b, Nothing(|k.fields|))
    else p == ValueBytes(k, v)
  }

  /** No field has any items yet. */
  function Nothing(n: nat): seq<nat> {
    seq(n, _ => 0)
  }

  /** An unknown field stands at the front of r, and then again such an encoding. */
  ghost predicate UnknownFirst(fs: seq<Field>, m: seq<Slot>, r: Bytes, done: seq<nat>, u: Unknown)
    requires |m| == |fs| == |done| && r != []
    decreases fs, |r|, 0
  {
    Skippable(fs, u) && Leads(r, u.tag, u.wireType, u.payload) && Encodes(fs, m, Beyond(r, u.tag, u.wireType, u.payload), done)
  }

  /** A record of field x stands at the front of r, bringing its items up to n, and then the others. */
  ghost predicate OwnFirst(fs: seq<Field>, m: seq<Slot>, r: Bytes, done: seq<nat>, x: nat, wireType: nat, p: Bytes, n: nat)
    requires |m| == |fs| == |done| && r != []
    decreases fs, |r|, 0
  {
    x < |fs| && Part(fs[x], m[x], done[x], wireType, p, n) && Leads(r, fs[x].tag, wireType, p) &&
    Encodes(fs, m, Beyond(r, fs[x].tag, wireType, p), done[x := n])
  }

  /** r encodes what m has beyond the items that are done: each field's records in their order, but those of different
      fields in any order, with unknown fields in between. */
  ghost predicate Encodes(fs: seq<Field>, m: seq<Slot>, r: Bytes, done: seq<nat>)
    requires |m| == |fs| == |done|
    decreases fs, |r|, 1
  {
    if r == [] then forall t :: 0 <= t < |fs| ==> Complete(fs[t], m[t], done[t])
    else
      || (exists u: Unknown :: UnknownFirst(fs, m, r, done, u))
      || (exists x: nat, wireType: nat, p: Bytes, n: nat :: OwnFirst(fs, m, r, done, x, wireType, p, n))
  }

  // ------------------------------------------------------------ order does not matter

  /** A record, tag and payload. */
  function RecordBytes(tag: nat, wireType: nat, p: Bytes): Bytes {
    TagBytes(tag, wireType) + p
  }

  lemma RecordLeads(tag: nat, wireType: nat, p: Bytes, rest: Bytes)
    ensures var r := RecordBytes(tag, wireType, p) + rest;
      r != [] && Leads(r, tag, wireType, p) && Beyond(r, tag, wireType, p) == rest
  {
    var t := TagBytes(tag, wireType);
    NotEmptyTag(tag, wireType);
    assert t + p + rest == t + (p + rest);
    ConcatStarts(t, p + rest);
    ConcatStarts(p, rest);
  }

  /** A record of a field in front of an encoding of what is left after it. */
  lemma OwnInFront(fs: seq<Field>, m: seq<Slot>, rest: Bytes, done: seq<nat>, x: nat, wireType: nat, p: Bytes, n: nat)
    requires |m| == |fs| == |done| && x < |fs| && Part(fs[x], m[x], done[x], wireType, p, n) && Encodes(fs, m, rest, done[x := n])
    ensures Encodes(fs, m, RecordBytes(fs[x].tag, wireType, p) + rest, done)
  {
    hide Part, Leads, RecordBytes, Beyond;
    RecordLeads(fs[x].tag, wireType, p, rest);
    assert OwnFirst(fs, m, RecordBytes(fs[x].tag, wireType, p) + rest, done, x, wireType, p, n);
  }

  /** An unknown field may stand in front of any encoding. */
  lemma UnknownInFront(fs: seq<Field>, m: seq<Slot>, rest: Bytes, done: seq<nat>, u: Unknown)
    requires |m| == |fs| == |done| && Skippable(fs, u) && Encodes(fs, m, rest, done)
    ensures Encodes(fs, m, RecordBytes(u.tag, u.wireType, u.payload) + rest, done)
  {
    hide Skippable, Leads, RecordBytes, Beyond;
    RecordLeads(u.tag, u.wireType, u.payload, rest);
    assert UnknownFirst(fs, m, RecordBytes(u.tag, u.wireType, u.payload) + rest, done, u);
  }

  /** Two records of different fields, one after the other, may change places. */
  lemma RecordsSwap(fs: seq<Field>, m: seq<Slot>, rest: Bytes, done: seq<nat>, x: nat, w: nat, p: Bytes, n: nat, y: nat, v: nat, q: Bytes, k: nat)
    requires |m| == |fs| == |done| && x < |fs| && y < |fs| && x != y
    requires Part(fs[x], m[x], done[x], w, p, n) && Part(fs[y], m[y], done[y], v, q, k) && Encodes(fs, m, rest, done[x := n][y := k])
    ensures var a, b := RecordBytes(fs[x].tag, w, p), RecordBytes(fs[y].tag, v, q);
      Encodes(fs, m, a + (b + rest), done) && Encodes(fs, m, b + (a + rest), done)
  {
    hide Part, RecordBytes, Encodes;
    assert done[x := n][y := k] == done[y := k][x := n];
    OwnInFront(fs, m, rest, done[x := n], y, v, q, k);
    OwnInFront(fs, m, RecordBytes(fs[y].tag, v, q) + rest, done, x, w, p, n);
    OwnInFront(fs, m, rest, done[y := k], x, w, p, n);
    OwnInFront(fs, m, RecordBytes(fs[x].tag, w, p) + rest, done, y, v, q, k);
  }

  /** A packed array may be split anywhere. */
  lemma ArraysSplit(fs: seq<Field>, m: seq<Slot>, rest: Bytes, done: seq<nat>, x: nat, k: nat, n: nat)
    requires |m| == |fs| == |done| && x < |fs| && m[x].Many? && Packable(fs[x].kind) && done[x] <= k <= n <= |m[x].items|
    requires Encodes(fs, m, rest, done[x := n])
    ensures var f, items := fs[x], m[x].items;
      Encodes(fs, m, RecordBytes(f.tag, 2, Prefixed(ItemBytes(f.kind, items[done[x]..k]))) +
                     (RecordBytes(f.tag, 2, Prefixed(ItemBytes(f.kind, items[k..n]))) + rest), done)
  {
    hide RecordBytes, Encodes, ItemBytes, Prefixed;
    var f, items := fs[x], m[x].items;
    assert done[x := k][x := n] == done[x := n];
    OwnInFront(fs, m, rest, done[x := k], x, 2, Prefixed(ItemBytes(f.kind, items[k..n])), n);
    OwnInFront(fs, m, RecordBytes(f.tag, 2, Prefixed(ItemBytes(f.kind, items[k..n]))) + rest, done, x, 2,
               Prefixed(ItemBytes(f.kind, items[done[x]..k])), k);
  }

  // ------------------------------------------------------------ what the encoder writes

  lemma {:induction false} PlainValue(k: Kind, v: Value)
    requires KindOk(k) && Typed(k, v, true)
    ensures ValueIs(k, v, ValueBytes(k, v))
    decreases k, 0
  {
    hide MessageBytes, Prefixed, TypedSlot, Encodes, Remaining;
    if k.Submessage? {
      FirstRecord(k.fields, v.slots);
      PlainEncodes(k.fields, v.slots, 0, 0);
      NothingDone(k.fields, v.slots);
    }
  }

  /** The items of a field after j of the records that the encoder writes. */
  function ItemsAfter(f: Field, s: Slot, j: nat): nat {
    if s.Many? && Packable(f.kind) && j > 0 then |s.items| else j
  }

  function DoneAt(fs: seq<Field>, m: seq<Slot>, i: nat, j: nat): (r: seq<nat>)
    requires |m| == |fs|
    ensures |r| == |fs|
  {
    seq(|fs|, t requires 0 <= t < |fs| => ItemsAfter(fs[t], m[t], Taken(fs, m, i, j, t)))
  }

  lemma NothingDone(fs: seq<Field>, m: seq<Slot>)
    requires |m| == |fs|
    ensures DoneAt(fs, m, 0, 0) == Nothing(|fs|)
  {
    assert forall t :: 0 <= t < |fs| ==> DoneAt(fs, m, 0, 0)[t] == 0;
  }

  lemma {:induction false} PlainPart(f: Field, s: Slot, j: nat)
    requires FieldOk(f) && TypedSlot(f, s, true) && j < RecordCount(f, s)
    ensures Part(f, s, ItemsAfter(f, s, j), RecordWire(f, s), Payload(f, s, j), ItemsAfter(f, s, j + 1))
    decreases f, 0
  {
    hide ValueBytes, Typed, KindOk, Prefixed, ItemBytes, ValueIs;
    match s
    case One(v) => PlainValue(f.kind, v);
    case Opt(_, v) => PlainValue(f.kind, v);
    case Many(items) =>
      if Packable(f.kind) { assert items[0..|items|] == items; } else { PlainValue(f.kind, items[j]); }
  }

  lemma AllDone(fs: seq<Field>, m: seq<Slot>, i: nat, j: nat)
    requires |m| == |fs| <= i && TypedMessage(fs, m, true)
    ensures forall t :: 0 <= t < |fs| ==> Complete(fs[t], m[t], DoneAt(fs, m, i, j)[t])
  {
    forall t | 0 <= t < |fs| ensures Complete(fs[t], m[t], DoneAt(fs, m, i, j)[t]) {
      assert TypedSlot(fs[t], m[t], true) && Taken(fs, m, i, j, t) == RecordCount(fs[t], m[t]);
    }
  }

  lemma OneMoreDone(fs: seq<Field>, m: seq<Slot>, x: nat, y: nat)
    requires |m| == |fs| && x < |fs|
    ensures DoneAt(fs, m, x, y)[x] == ItemsAfter(fs[x], m[x], y)
    ensures DoneAt(fs, m, x, y + 1) == DoneAt(fs, m, x, y)[x := ItemsAfter(fs[x], m[x], y + 1)]
  {
    hide ItemsAfter;
  }

  lemma SameDone(fs: seq<Field>, m: seq<Slot>, i: nat, j: nat, x: nat, y: nat)
    requires |m| == |fs| && forall t :: 0 <= t < |fs| ==> Taken(fs, m, x, y, t) == Taken(fs, m, i, j, t)
    ensures DoneAt(fs, m, x, y) == DoneAt(fs, m, i, j)
  {
    hide ItemsAfter;
  }

  /** What the encoder writes is among these encodings. */
  lemma {:induction false} PlainEncodes(fs: seq<Field>, m: seq<Slot>, i: nat, j: nat)
    requires FieldsOk(fs) && TypedMessage(fs, m, true) && (i < |fs| ==> j <= RecordCount(fs[i], m[i]))
    ensures Encodes(fs, m, Remaining(fs, m, i, j), DoneAt(fs, m, i, j))
    decreases fs, |Remaining(fs, m, i, j)|, 1
  {
    hide TypedSlot, FieldOk, Remaining, RecordCount, RecordWire, Payload, TagBytes, Part, Starts, Past, DoneAt, Complete, ItemsAfter;
    var x, y := NextRecord(fs, m, i, j);
    SameDone(fs, m, i, j, x, y);
    if x < |fs| {
      var p, w := Payload(fs[x], m[x], y), RecordWire(fs[x], m[x]);
      RecordAt(fs, m, x, y);
      assert TypedSlot(fs[x], m[x], true);
      PlainPart(fs[x], m[x], y);
      assert Beyond(Remaining(fs, m, i, j), fs[x].tag, w, p) == Remaining(fs, m, x, y + 1);
      OneMoreDone(fs, m, x, y);
      PlainEncodes(fs, m, x, y + 1);
      assert OwnFirst(fs, m, Remaining(fs, m, i, j), DoneAt(fs, m, x, y), x, w, p, ItemsAfter(fs[x], m[x], y + 1));
    } else {
      AllDone(fs, m, x, y);
    }
  }
}
