/** pb_decode: records in any order into the fields they belong to, unknown ones skipped. */
module PbDecode {
  import opened Keys
  import opened Coding
  import opened PbFormat
  import opened PbFields
  import opened PbStreams
  import opened PbScalars
  import opened PbRecords
  import opened PbForeign
  import opened PbRequired
  import opened PbReading

  // ------------------------------------------------------------ what the decoder is given

  /** The bytes r begin with p, which leaves v when it is read into dest. */
  ghost predicate HoldsValue(k: Kind, dest: Value, element: bool, p: Bytes, v: Value, r: Bytes) {
    KindOk(k) && ValueReads(k, dest, element, p, v) && |p| < 0x1_0000_0000 && Starts(r, p)
  }

  /** The bytes r begin with p, the payload of a record that takes the field from s to t. */
  ghost predicate HoldsPart(f: Field, s: Slot, wireType: nat, p: Bytes, t: Slot, r: Bytes) {
    KindOk(f.kind) && PartReads(f, s, wireType, p, t) && |p| < 0x1_0000_0000 && Starts(r, p)
  }

  /** Reading all of r takes the message from cur to m. */
  ghost predicate HoldsReads(fs: seq<Field>, cur: seq<Slot>, r: Bytes, m: seq<Slot>) {
    FieldsOk(fs) && Reads(fs, cur, {}, r, m) && |r| < 0x1_0000_0000
  }

  /** The bytes r are the encoding of m. */
  ghost predicate HoldsMessage(fs: seq<Field>, m: seq<Slot>, r: Bytes) {
    FieldsOk(fs) && TypedMessage(fs, m, true) && r == MessageBytes(fs, m) && |r| < 0x1_0000_0000
  }

  /** The bytes r are an encoding of m, in any order and with unknown fields in between. */
  ghost predicate HoldsEncoding(fs: seq<Field>, m: seq<Slot>, r: Bytes) {
    FieldsOk(fs) && TypedMessage(fs, m, true) && Encodes(fs, m, r, Nothing(|fs|)) && |r| < 0x1_0000_0000
  }

  lemma PlainHolds(fs: seq<Field>, m: seq<Slot>, r: Bytes)
    ensures HoldsMessage(fs, m, r) ==> HoldsEncoding(fs, m, r)
  {
    hide FieldsOk, TypedSlot, MessageBytes, Remaining, Encodes, DoneAt, Nothing;
    if HoldsMessage(fs, m, r) {
      FirstRecord(fs, m);
      PlainEncodes(fs, m, 0, 0);
      NothingDone(fs, m);
    }
  }

  /** Any encoding of m is read as m, but for the contents of absent fields. */
  lemma EncodingHolds(fs: seq<Field>, m: seq<Slot>, r: Bytes)
    requires HoldsEncoding(fs, m, r)
    ensures HoldsReads(fs, Defaults(fs), r, NormalMessage(fs, m))
  {
    hide FieldsOk, TypedSlot, Encodes, Defaults, NormalMessage, Reads;
    WholeIsRead(fs, m, r);
  }

  // ------------------------------------------------------------ arrays

  /** All of one kind, and within the memory of capacity elements. */
  ghost predicate StoredItems(k: Kind, items: seq<Value>, capacity: nat) {
    |items| <= capacity && forall j :: 0 <= j < |items| ==> Stored(k, items[j])
  }

  /** The bytes r begin with the items, packed. */
  ghost predicate HoldsItems(k: Kind, items: seq<Value>, room: int, r: Bytes) {
    |items| <= room && (forall j :: 0 <= j < |items| ==> Typed(k, items[j], true)) &&
    |ItemBytes(k, items)| < 0x1_0000_0000 && Starts(r, Prefixed(ItemBytes(k, items)))
  }

  lemma ItemAt(k: Kind, items: seq<Value>, n: nat, r: Bytes)
    requires Packable(k) && n <= |items| && r == ItemBytes(k, items[n..])
    requires forall j :: 0 <= j < |items| ==> Typed(k, items[j], true)
    ensures r == [] <==> n == |items|
    ensures n < |items| ==> items[n].Num? && ScalarOk(k, items[n].n) && Starts(r, ScalarBytes(k, items[n].n))
    ensures n < |items| ==> Past(r, ScalarBytes(k, items[n].n)) == ItemBytes(k, items[n + 1..])
  {
    if n < |items| {
      ItemsStep(k, items, n);
      assert Typed(k, items[n], true);
      ConcatStarts(ScalarBytes(k, items[n].n), ItemBytes(k, items[n + 1..]));
    }
  }

  lemma ScalarStored(k: Kind, n: int)
    requires Packable(k) && ScalarOk(k, n)
    ensures Stored(k, Num(n)) && NormalValue(k, Num(n)) == Num(n)
  {
  }

  /** Items until the substream is used up, the array is full, or one cannot be decoded. */
  method DecodeItems(sub: IStream, k: Kind, capacity: nat, before: seq<Value>, ghost items: seq<Value>)
    returns (ok: bool, r: seq<Value>)
    requires sub.Valid() && Packable(k) && StoredItems(k, before, capacity)
    modifies sub
    ensures sub.Valid() && sub.pos + sub.left == old(sub.pos + sub.left) && sub.pos >= old(sub.pos)
    ensures StoredItems(k, r, capacity) && before <= r
    ensures sub.left > 0 ==> !ok || |r| == capacity
    ensures old(AllItems(k, items, capacity - |before|, sub.Rest())) ==> ok && r == before + items && sub.left == 0
  {
    hide ItemBytes, Typed, ScalarBytes, ScalarOk, Starts, Past, Stored, Packable;
    ghost var near := AllItems(k, items, capacity - |before|, sub.Rest());
    r := before;
    ok := true;
    assert items[0..] == items;
    ghost var n := 0;
    while sub.left > 0 && |r| < capacity
      invariant sub.Valid() && old(sub.pos) <= sub.pos && sub.pos + sub.left == old(sub.pos + sub.left)
      invariant StoredItems(k, r, capacity) && before <= r
      invariant near ==> n <= |items| && |r| == |before| + n && r == before + items[..n] && sub.Rest() == ItemBytes(k, items[n..])
      decreases sub.left
    {
      if near { ItemAt(k, items, n, sub.Rest()); }
      var x: int;
      ok, x := DecScalar(sub, k, if near then items[n].n else 0);
      if !ok {
        return;
      }
      ScalarStored(k, x);
      r := r + [Num(x)];
      n := n + 1;
    }
    if near { ItemAt(k, items, n, sub.Rest()); }
  }

  /** The bytes r are the items, packed. */
  ghost predicate AllItems(k: Kind, items: seq<Value>, room: int, r: Bytes) {
    |items| <= room && (forall j :: 0 <= j < |items| ==> Typed(k, items[j], true)) && r == ItemBytes(k, items)
  }

  /** The packed branch of decode_static_field. */
  method DecodePacked(s: IStream, k: Kind, capacity: nat, before: seq<Value>, ghost items: seq<Value>)
    returns (ok: bool, r: seq<Value>)
    requires s.Valid() && Packable(k) && StoredItems(k, before, capacity)
    modifies s
    ensures s.Valid() && s.pos >= old(s.pos) && s.pos + s.left <= old(s.pos + s.left)
    ensures ok ==> s.pos + s.left == old(s.pos + s.left) && StoredItems(k, r, capacity) && before <= r
    ensures old(HoldsItems(k, items, capacity - |before|, s.Rest())) ==>
      ok && r == before + items && s.Rest() == Past(old(s.Rest()), Prefixed(ItemBytes(k, items)))
  {
    hide ItemBytes, Typed, Prefixed, Starts, Past, StoredItems, Packable;
    var status, sub := MakeSubstream(s, ItemBytes(k, items));
    r := before;
    if !status {
      return false, r;
    }
    status, r := DecodeItems(sub, k, capacity, before, items);
    if sub.left != 0 {
      return false, r;
    }
    CloseSubstream(s, sub);
    ok := status;
  }

  // ------------------------------------------------------------ values, fields, messages

  /** The decoder of a value of kind k; dest is what its memory holds before. Elements of arrays start
      from their defaults, whatever was there. */
  method DecodeValue(s: IStream, k: Kind, dest: Value, element: bool, ghost p: Bytes, ghost v: Value)
    returns (ok: bool, r: Value)
    requires s.Valid() && Stored(k, dest) && (!element ==> DestSourced(k, dest, s.data))
    modifies s
    ensures s.Valid() && s.pos >= old(s.pos) && s.pos + s.left <= old(s.pos + s.left)
    ensures ok ==> s.pos + s.left == old(s.pos + s.left) && Stored(k, r) && ValueSourced(k, r, s.data)
    ensures old(HoldsValue(k, dest, element, p, v, s.Rest())) ==> ok && r == v && s.Rest() == Past(old(s.Rest()), p)
    decreases KindHeight(k), 1
  {
    hide MessageBytes, Prefixed, ScalarBytes, Starts, Past, StoredSlot, CString, Default, HoldsValue, HoldsSubmessage, DestSourced, Sourced,
         SlotsSourced;
    if HoldsValue(k, dest, element, p, v, s.Rest()) { ValueHeld(k, dest, element, p, v, s.Rest()); }
    if Packable(k) {
      var n: int;
      ok, n := DecScalar(s, k, if v.Num? then v.n else 0);
      r := Num(n);
      if ok { ScalarStored(k, n); }
      return;
    }
    var b;
    match k
    case ByteArray(capacity) =>
      ok, b := DecLimited(s, capacity, if v.Raw? then v.b else []);
      r := Raw(b);
    case Text(capacity) =>
      ok, b := DecLimited(s, capacity - 1, if v.Raw? then v.b else []);
      NoZeros(b);
      r := Raw(CString(b));
    case ByteBlock(length) =>
      ok, b := DecBlock(s, length, if v.Raw? then v.b else []);
      r := Raw(b);
    case Submessage(fields) =>
      DefaultSlots(k);
      DefaultsAreStored(fields);
      DefaultsSourced(fields, s.data);
      if !element { SlotsOfDest(k, dest, s.data); }
      var m;
      ok, m := DecodeSubmessage(s, fields, if element then Defaults(fields) else dest.slots, p, if v.Msg? then v.slots else []);
      r := Msg(m);
  }

  lemma ValueHeld(k: Kind, dest: Value, element: bool, p: Bytes, v: Value, r: Bytes)
    requires HoldsValue(k, dest, element, p, v, r)
    ensures Packable(k) ==> v.Num? && ScalarOk(k, v.n) && Starts(r, ScalarBytes(k, v.n)) && p == ScalarBytes(k, v.n)
    ensures k.Submessage? ==> v.Msg? && (!element ==> dest.Msg?)
    ensures k.Submessage? ==> HoldsSubmessage(k.fields, if element then Defaults(k.fields) else dest.slots, p, v.slots, r)
    ensures !k.Submessage? && !Packable(k) ==> v.Raw? && |v.b| < 0x1_0000_0000 && p == Prefixed(v.b) && Starts(r, Prefixed(v.b))
    ensures k.ByteArray? ==> |v.b| <= k.capacity
    ensures k.Text? ==> |v.b| <= k.capacity - 1 && forall x :: x in v.b ==> x != 0
    ensures k.ByteBlock? ==> |v.b| == k.length
  {
    hide MessageBytes, ScalarBytes, Starts, TypedSlot, FieldsOk, Varint, Reads, Defaults;
  }

  lemma DefaultSlots(k: Kind)
    requires k.Submessage?
    ensures Default(k) == Msg(Defaults(k.fields))
  {
  }

  /** pb_dec_submessage. */
  method DecodeSubmessage(s: IStream, fields: seq<Field>, dest: seq<Slot>, ghost p: Bytes, ghost target: seq<Slot>)
    returns (ok: bool, m: seq<Slot>)
    requires s.Valid() && StoredMessage(fields, dest) && SlotsSourced(fields, dest, s.data, map[])
    modifies s
    ensures s.Valid() && s.pos >= old(s.pos) && s.pos + s.left <= old(s.pos + s.left)
    ensures ok ==> s.pos + s.left == old(s.pos + s.left) && StoredMessage(fields, m) && Sourced(fields, m, s.data)
    ensures old(HoldsSubmessage(fields, dest, p, target, s.Rest())) ==> ok && m == target && s.Rest() == Past(old(s.Rest()), p)
    decreases Height(fields) + 1, 0
  {
    hide Prefixed, Starts, Past, FieldsOk, StoredMessage, HoldsReads, Sourced, SlotsSourced, TagsAt, RequiredRead;
    ghost var near, b := HoldsSubmessage(fields, dest, p, target, s.Rest()), [];
    if near {
      b :| p == Prefixed(b) && |b| < 0x1_0000_0000 && HoldsReads(fields, dest, b, target);
    }
    var sub;
    m := dest;
    ok, sub := MakeSubstream(s, b);
    if !ok {
      return;
    }
    ghost var at;
    ok, m, at := DecodeMessage(sub, fields, dest, target);
    CloseSubstream(s, sub);
  }

  /** The bytes r begin with p, a length and that many bytes that take the message from cur to m. */
  ghost predicate HoldsSubmessage(fs: seq<Field>, cur: seq<Slot>, p: Bytes, m: seq<Slot>, r: Bytes) {
    Starts(r, p) && exists b: Bytes :: p == Prefixed(b) && |b| < 0x1_0000_0000 && HoldsReads(fs, cur, b, m)
  }

  /** pb_decode_noinit. at tells for each field whose tag was read where one was. */
  method DecodeMessage(s: IStream, fields: seq<Field>, dest: seq<Slot>, ghost target: seq<Slot>)
    returns (ok: bool, m: seq<Slot>, ghost at: map<nat, nat>)
    requires s.Valid() && StoredMessage(fields, dest) && SlotsSourced(fields, dest, s.data, map[])
    modifies s
    ensures s.Valid() && s.pos >= old(s.pos) && s.pos + s.left <= old(s.pos + s.left)
    ensures ok ==> s.pos + s.left == old(s.pos + s.left) && StoredMessage(fields, m) && Sourced(fields, m, s.data)
    ensures ok ==> RequiredRead(fields, at) && TagsAt(s.data, fields, at, old(s.pos), s.pos)
    ensures old(HoldsReads(fields, dest, s.Rest(), target)) ==> ok && m == target && s.left == 0
    decreases Height(fields), 7
  {
    hide FieldsOk, StoredMessage, HoldsReads, OnTrack, OwnHere, UnknownHere, AfterUnknown, Height, Tracked, SeenIs,
      TagsAt, RequiredRead, CountRequired, SlotsSourced, Sourced, Beyond;
    ghost var near := HoldsReads(fields, dest, s.Rest(), target);
    ghost var from, end := s.pos, s.pos + s.left;
    var iter := new FieldIter(fields);
    m, at := dest, map[];
    var seen: set<nat> := {};
    var stop := false;
    ghost var own, u := Own(0, 0, [], One(Num(0))), None;
    NothingRead(s.data, fields, from, s.pos);
    StartTrack(fields, dest, s.Rest(), target);
    while s.left > 0 && !stop
      invariant iter.Valid() && iter.fields == fields && fresh(iter)
      invariant s.Valid() && from <= s.pos && s.pos + s.left == end
      invariant StoredMessage(fields, m) && SeenIs(fields, at, seen) && TagsAt(s.data, fields, at, from, s.pos) && SlotsSourced(fields, m, s.data, at)
      invariant near ==> !stop && OnTrack(fields, m, at, s.Rest(), target)
      decreases s.left, !stop
    {
      if near { own, u := NextOnTrack(fields, m, at, s.Rest(), target, s.pos); }
      ok, stop, m, seen, at := DecodeRecord(s, iter, m, seen, at, from, own, u);
      if !ok {
        return;
      }
    }
    if near { EndOfTrack(fields, m, at, s.Rest(), target); }
    SeenMeansRead(fields, at, seen);
    ok := CheckRequired(iter, seen);
    if ok { SourceFound(fields, m, s.data, at, from, s.pos); }
  }

  // ------------------------------------------------------------ one record

  lemma PackedHeld(f: Field, s: Slot, p: Bytes, t: Slot, r: Bytes)
    requires HoldsPart(f, s, 2, p, t, r) && f.rule.Repeated? && Packable(f.kind)
    ensures s.Many? && t.Many? && s.items <= t.items
    ensures var more := t.items[|s.items|..];
      HoldsItems(f.kind, more, f.rule.capacity - |s.items|, r) && p == Prefixed(ItemBytes(f.kind, more)) && t.items == s.items + more
  {
    hide Typed, Prefixed, Starts, ItemBytes, KindOk;
    SmallerPart(ItemBytes(f.kind, t.items[|s.items|..]));
  }

  lemma SmallerPart(b: Bytes)
    ensures |b| < |Prefixed(b)|
  {
  }

  /** What a record that is not packed brings. */
  ghost function ValueOf(t: Slot): Value {
    match t
    case One(v) => v
    case Opt(_, v) => v
    case Many(items) => if items == [] then Num(0) else items[|items| - 1]
  }

  ghost function ItemsPast(s: Slot, t: Slot): seq<Value> {
    if s.Many? && t.Many? && |s.items| <= |t.items| then t.items[|s.items|..] else []
  }

  lemma PartHeld(f: Field, s: Slot, wireType: nat, p: Bytes, t: Slot, r: Bytes)
    requires HoldsPart(f, s, wireType, p, t, r) && !(f.rule.Repeated? && wireType == 2 && Packable(f.kind))
    ensures match f.rule
      case Optional => s.Opt? && t == Opt(true, ValueOf(t)) && HoldsValue(f.kind, s.v, false, p, ValueOf(t), r)
      case Repeated(c) =>
        s.Many? && |s.items| < c && t == Many(s.items + [ValueOf(t)]) && HoldsValue(f.kind, Default(f.kind), true, p, ValueOf(t), r)
      case _ => s.One? && t == One(ValueOf(t)) && HoldsValue(f.kind, s.v, false, p, ValueOf(t), r)
  {
    hide ValueReads, Default, Starts, KindOk;
  }

  /** decode_static_field. */
  method DecodeField(s: IStream, f: Field, wireType: nat, dest: Slot, ghost p: Bytes, ghost t: Slot)
    returns (ok: bool, r: Slot)
    requires s.Valid() && StoredSlot(f, dest) && SlotSourced(f, dest, s.data, false)
    modifies s
    ensures s.Valid() && s.pos >= old(s.pos) && s.pos + s.left <= old(s.pos + s.left)
    ensures ok ==> s.pos + s.left == old(s.pos + s.left) && StoredSlot(f, r) && SlotSourced(f, r, s.data, true)
    ensures old(HoldsPart(f, dest, wireType, p, t, s.Rest())) ==> ok && r == t && s.Rest() == Past(old(s.Rest()), p)
    decreases KindHeight(f.kind), 5
  {
    hide Stored, Typed, ValueBytes, Starts, Past, HoldsPart, HoldsValue, HoldsItems, Default, ItemBytes, Prefixed,
      Packable, ValueSourced, ValueOf;
    ghost var packed := f.rule.Repeated? && wireType == 2 && Packable(f.kind);
    if HoldsPart(f, dest, wireType, p, t, s.Rest()) {
      if packed { PackedHeld(f, dest, p, t, s.Rest()); } else { PartHeld(f, dest, wireType, p, t, s.Rest()); }
    }
    var v;
    match f.rule
    case Optional =>
      ok, v := DecodeValue(s, f.kind, dest.v, false, p, ValueOf(t));
      r := Opt(true, v);
    case Repeated(capacity) =>
      if wireType == 2 && Packable(f.kind) {
        var items;
        ok, items := DecodePacked(s, f.kind, capacity, dest.items, ItemsPast(dest, t));
        NotMessages(f.kind);
        r := Many(items);
      } else {
        if |dest.items| >= capacity {
          return false, dest;
        }
        DefaultIsStored(f.kind);
        ok, v := DecodeValue(s, f.kind, Default(f.kind), true, p, ValueOf(t));
        r := Many(dest.items + [v]);
      }
    case _ =>
      ok, v := DecodeValue(s, f.kind, dest.v, false, p, ValueOf(t));
      r := One(v);
  }

  lemma NotMessages(k: Kind)
    ensures Packable(k) ==> !k.Submessage?
  {
  }

  // ------------------------------------------------------------ on the way through an encoded message

  /** Reading what is left takes the message from cur to m. */
  ghost predicate OnTrack(fs: seq<Field>, cur: seq<Slot>, at: map<nat, nat>, r: Bytes, m: seq<Slot>) {
    FieldsOk(fs) && Reads(fs, cur, at.Keys, r, m) && |r| < 0x1_0000_0000
  }

  /** A record that takes field x to t. */
  datatype Own = Own(x: nat, wireType: nat, payload: Bytes, t: Slot)

  /** It comes next. */
  ghost predicate OwnHere(fs: seq<Field>, cur: seq<Slot>, r: Bytes, o: Own) {
    FieldsOk(fs) && |r| < 0x1_0000_0000 && |cur| == |fs| && o.x < |fs| && o.wireType < 8 &&
    PartReads(fs[o.x], cur[o.x], o.wireType, o.payload, o.t) && Leads(r, fs[o.x].tag, o.wireType, o.payload)
  }

  /** An unknown field comes next. */
  ghost predicate UnknownHere(fs: seq<Field>, r: Bytes, u: Option<Unknown>) {
    u.Some? && Skippable(fs, u.value) && Leads(r, u.value.tag, u.value.wireType, u.value.payload)
  }

  ghost function AfterUnknown(r: Bytes, u: Option<Unknown>): Bytes {
    if u.Some? then Beyond(r, u.value.tag, u.value.wireType, u.value.payload) else r
  }

  lemma StartTrack(fs: seq<Field>, cur: seq<Slot>, r: Bytes, m: seq<Slot>)
    ensures HoldsReads(fs, cur, r, m) ==> OnTrack(fs, cur, map[], r, m)
  {
    hide FieldsOk, Reads;
    var none: map<nat, nat> := map[];
    assert none.Keys == {};
  }

  /** What stands at the front of r, and where reading it leads: without u a record of a field, otherwise an unknown
      field. The tag is at q. */
  lemma NextOnTrack(fs: seq<Field>, cur: seq<Slot>, at: map<nat, nat>, r: Bytes, m: seq<Slot>, q: nat)
    returns (o: Own, u: Option<Unknown>)
    requires OnTrack(fs, cur, at, r, m) && r != []
    ensures u.None? ==> OwnHere(fs, cur, r, o) && o.x < |fs| == |cur|
    ensures u.None? ==> OnTrack(fs, cur[o.x := o.t], at[o.x := q], Beyond(r, fs[o.x].tag, o.wireType, o.payload), m)
    ensures u.Some? ==> UnknownHere(fs, r, u) && OnTrack(fs, cur, at, AfterUnknown(r, u), m)
  {
    hide FieldsOk, PartReads, Leads, Payloads, Beyond;
    o, u := Own(0, 0, [], One(Num(0))), None;
    assert Reads(fs, cur, at.Keys, r, m);
    if v: Unknown :| UnknownReads(fs, cur, at.Keys, r, m, v) {
      u := Some(v);
    } else {
      var x: nat, w: nat, p: Bytes, t: Slot :| OwnReads(fs, cur, at.Keys, r, m, x, w, p, t);
      o := Own(x, w, p, t);
      assert at[x := q].Keys == at.Keys + {x};
    }
  }

  lemma EndOfTrack(fs: seq<Field>, cur: seq<Slot>, at: map<nat, nat>, r: Bytes, m: seq<Slot>)
    requires OnTrack(fs, cur, at, r, m) && r == []
    ensures cur == m && RequiredRead(fs, at)
  {
    hide FieldsOk, Tracked;
  }

  lemma AtOwn(fs: seq<Field>, cur: seq<Slot>, r: Bytes, o: Own)
    requires OwnHere(fs, cur, r, o)
    ensures |cur| == |fs| && o.x < |fs| && 1 <= fs[o.x].tag < MAX_TAG && o.wireType < 8
    ensures forall t :: 0 <= t < |fs| && fs[t].tag == fs[o.x].tag ==> t == o.x
    ensures
      (var tag := TagBytes(fs[o.x].tag, o.wireType);
      Starts(r, tag) && HoldsPart(fs[o.x], cur[o.x], o.wireType, o.payload, o.t, Past(r, tag)) &&
      Beyond(r, fs[o.x].tag, o.wireType, o.payload) == Past(Past(r, tag), o.payload))
  {
    hide TagBytes, KindOk, PartReads;
    assert FieldOk(fs[o.x]);
    assert forall t :: 0 <= t < |fs| && t != o.x ==> fs[t].tag != fs[o.x].tag;
  }

  lemma AtUnknown(fs: seq<Field>, r: Bytes, u: Option<Unknown>)
    requires UnknownHere(fs, r, u)
    ensures u.Some? && 1 <= u.value.tag < MAX_TAG && u.value.wireType < 8 && Payloads(u.value.wireType, u.value.payload)
    ensures forall t :: 0 <= t < |fs| ==> fs[t].tag != u.value.tag
    ensures
      (var tag := TagBytes(u.value.tag, u.value.wireType);
      Starts(r, tag) && Starts(Past(r, tag), u.value.payload) && AfterUnknown(r, u) == Past(Past(r, tag), u.value.payload))
  {
    hide TagBytes, Starts, Past;
  }

  lemma NothingRead(data: Bytes, fs: seq<Field>, from: nat, end: nat)
    ensures SeenIs(fs, map[], {}) && TagsAt(data, fs, map[], from, end)
  {
  }

  /** Reading on keeps what is known of the tags; field i's is added. */
  lemma TagRead(data: Bytes, fs: seq<Field>, at: map<nat, nat>, from: nat, p: nat, q: nat, end: nat, i: nat, v: nat)
    requires TagsAt(data, fs, at, from, p) && p <= q <= end && from <= p
    ensures TagsAt(data, fs, at, from, end)
    ensures i < |fs| && fs[i].tag == v / 8 && VarintIs(data, p, q, v) ==> TagsAt(data, fs, at[i := p], from, end)
  {
    hide VarintIs;
    forall x | x in at ensures TagAt(data, at[x], fs[x].tag, end) {
      var y: nat, z: nat :| y <= p && z / 8 == fs[x].tag && VarintIs(data, at[x], y, z);
      assert y <= end;
    }
  }

  /** One turn of the loop of pb_decode_noinit: a record of the message goes into its field, and an
      unknown field changes nothing. */
  method DecodeRecord(s: IStream, iter: FieldIter, dest: seq<Slot>, seen: set<nat>, ghost at: map<nat, nat>, ghost from: nat,
                      ghost o: Own, ghost u: Option<Unknown>)
    returns (ok: bool, stop: bool, m: seq<Slot>, bits: set<nat>, ghost marks: map<nat, nat>)
    requires s.Valid() && iter.Valid() && StoredMessage(iter.fields, dest) && from <= s.pos
    requires SeenIs(iter.fields, at, seen) && TagsAt(s.data, iter.fields, at, from, s.pos) && SlotsSourced(iter.fields, dest, s.data, at)
    modifies s, iter
    ensures s.Valid() && iter.Valid() && s.pos >= old(s.pos) && s.pos + s.left <= old(s.pos + s.left)
    ensures ok ==> s.pos + s.left == old(s.pos + s.left) && (stop || s.pos > old(s.pos)) && StoredMessage(iter.fields, m)
    ensures ok ==> SeenIs(iter.fields, marks, bits) && TagsAt(s.data, iter.fields, marks, from, s.pos) && SlotsSourced(iter.fields, m, s.data, marks)
    ensures u.None? && old(OwnHere(iter.fields, dest, s.Rest(), o)) ==>
      ok && !stop && |dest| == |iter.fields| && o.x < |dest| && marks == at[o.x := old(s.pos)] && m == dest[o.x := o.t] &&
      s.Rest() == Beyond(old(s.Rest()), iter.fields[o.x].tag, o.wireType, o.payload)
    ensures old(UnknownHere(iter.fields, s.Rest(), u)) ==>
      ok && !stop && m == dest && bits == seen && marks == at && s.Rest() == AfterUnknown(old(s.Rest()), u)
    decreases Height(iter.fields), 6
  {
    hide OwnHere, UnknownHere, AfterUnknown, SeenIs, TagsAt, StoredSlot, HoldsPart, Starts, Past, TagBytes, VarintIs,
      CountRequired, KindHeight, Payloads, Beyond, SlotSourced;
    ghost var fs, own, foreign := iter.fields, u.None? && OwnHere(iter.fields, dest, s.Rest(), o), UnknownHere(iter.fields, s.Rest(), u);
    if own { AtOwn(fs, dest, s.Rest(), o); }
    if foreign { AtUnknown(fs, s.Rest(), u); }
    ghost var p := s.pos;
    m, bits, marks := dest, seen, at;
    var wireType, tag;
    ok, wireType, tag, stop := DecodeTag(s, if own then fs[o.x].tag else if foreign then u.value.tag else 0,
      if own then o.wireType else if foreign then u.value.wireType else 0);
    ghost var q := s.pos;
    TagRead(s.data, fs, at, from, p, q, q, 0, 0);
    if !ok {
      ok := stop;
      return;
    }
    stop := false;
    var found := iter.Find(tag);
    if !found {
      ok := SkipField(s, wireType, if foreign then u.value.payload else []);
      TagRead(s.data, fs, at, from, p, q, s.pos, 0, 0);
      return;
    }
    var x := iter.pos;
    if iter.fields[x].rule.Required? && iter.requiredIndex < MAX_REQUIRED_FIELDS {
      bits := seen + {iter.requiredIndex};
    }
    marks := at[x := p];
    OneSeen(fs, at, seen, x, p);
    HeightOf(fs, x);
    var slot;
    UnreadSourced(fs[x], dest[x], s.data, x in at);
    ok, slot := DecodeField(s, iter.fields[x], wireType, dest[x], o.payload, o.t);
    if ok { OneMoreSourced(fs, dest, s.data, at, x, slot, p); }
    TagRead(s.data, fs, at, from, p, q, s.pos, x, tag * 8 + wireType);
    m := dest[x := slot];
  }

  // ------------------------------------------------------------ whole messages

  /** pb_decode: whatever it accepts fits the memory of the message, and had every required field, as had the messages in it. */
  method Decode(s: IStream, fields: seq<Field>, ghost target: seq<Slot>)
    returns (ok: bool, m: seq<Slot>, ghost at: map<nat, nat>)
    requires s.Valid()
    modifies s
    ensures s.Valid() && s.pos >= old(s.pos) && s.pos + s.left <= old(s.pos + s.left)
    ensures ok ==> StoredMessage(fields, m) && RequiredRead(fields, at) && TagsAt(s.data, fields, at, old(s.pos), s.pos) && Sourced(fields, m, s.data)
    ensures old(HoldsReads(fields, Defaults(fields), s.Rest(), target)) ==> ok && m == target && s.left == 0
  {
    hide HoldsReads, Defaults, StoredMessage, RequiredRead, TagsAt, Sourced, SlotsSourced;
    DefaultsAreStored(fields);
    DefaultsSourced(fields, s.data);
    ok, m, at := DecodeMessage(s, fields, Defaults(fields), target);
  }
}
