/** pb_encode: fields in order, submessages in two passes, the first of which only counts. */
module PbEncode {
  import opened Coding
  import opened PbFormat
  import opened PbFields

  /** An output stream; one without a callback only counts. */
  class OStream {
    const sizing: bool
    var out: Bytes
    var maxSize: nat
    var bytesWritten: nat

    ghost predicate Valid()
      reads this
    {
      if sizing then out == [] else bytesWritten <= maxSize
    }

    /** Whether n more bytes can be taken. */
    ghost predicate Room(n: nat)
      reads this
    {
      sizing || bytesWritten + n <= maxSize
    }

    constructor (sizing: bool, maxSize: nat)
      ensures Valid() && this.sizing == sizing && this.maxSize == maxSize && out == [] && bytesWritten == 0
    {
      this.sizing := sizing;
      this.maxSize := maxSize;
      out, bytesWritten := [], 0;
    }

    /** pb_write. */
    method Write(buf: Bytes) returns (ok: bool)
      requires Valid()
      modifies this`out, this`bytesWritten
      ensures Valid() && ok == old(Room(|buf|))
      ensures ok ==> Added(old(out), old(bytesWritten), buf)
    {
      if |buf| > 0 && !sizing {
        if bytesWritten + |buf| > maxSize {
          return false;
        }
        out := out + buf;
      }
      bytesWritten := bytesWritten + |buf|;
      assert |buf| == 0 ==> out + buf == out;
      ok := true;
    }

    /** buf has been taken since the stream held the given bytes. */
    ghost predicate Added(before: Bytes, written: nat, buf: Bytes)
      reads this
    {
      bytesWritten == written + |buf| && out == if sizing then before else before + buf
    }

    /** pb_write without data, of a stream that only counts. */
    method Skip(n: nat) returns (ok: bool)
      requires Valid() && sizing
      modifies this`bytesWritten
      ensures Valid() && ok && bytesWritten == old(bytesWritten) + n
    {
      bytesWritten := bytesWritten + n;
      ok := true;
    }
  }

  /** Taking x and then y is taking x + y. */
  lemma AddedTwice(a: Bytes, x: Bytes, y: Bytes)
    ensures a + x + y == a + (x + y)
  {
  }

  /** The loop of pb_encode_varint, for values of more than one byte. */
  method FillBuffer(value: nat) returns (buffer: Bytes)
    requires value > 0x7F
    ensures buffer == Varint(value)
  {
    hide Varint;
    buffer := [];
    var v: nat := value;
    while v > 0
      invariant v > 0 ==> buffer + Varint(v) == Varint(value)
      invariant v == 0 ==> TopBitTaken(buffer, Varint(value))
    {
      Unfolded(v);
      OneMoreByte(buffer, v);
      buffer := buffer + [v % 128 + 128];
      v := v / 128;
    }
    buffer := buffer[..|buffer| - 1] + [buffer[|buffer| - 1] - 128];
  }

  lemma OneMoreByte(buffer: Bytes, v: nat)
    requires v > 0
    ensures v >= 128 ==> buffer + [v % 128 + 128] + Varint(v / 128) == buffer + Varint(v) && v / 128 > 0
    ensures v < 128 ==> v / 128 == 0 && TopBitTaken(buffer + [v % 128 + 128], buffer + Varint(v))
  {
    hide Varint;
    Unfolded(v);
    var x: Byte := v % 128 + 128;
    var r := buffer + [x];
    if v < 128 {
      assert r[..|r| - 1] == buffer && r[|r| - 1] == x;
    } else {
      AddedTwice(buffer, [x], Varint(v / 128));
    }
  }

  method EncodeVarint(s: OStream, value: nat) returns (ok: bool)
    requires s.Valid()
    modifies s`out, s`bytesWritten
    ensures s.Valid() && ok == old(s.Room(|Varint(value)|))
    ensures ok ==> s.Added(old(s.out), old(s.bytesWritten), Varint(value))
  {
    hide Varint;
    if value <= 0x7F {
      Unfolded(value);
      ok := s.Write([value]);
    } else {
      var buffer := FillBuffer(value);
      ok := s.Write(buffer);
    }
  }

  /** buffer is r, but for the top bit of the last byte. */
  ghost predicate TopBitTaken(buffer: Bytes, r: Bytes) {
    |buffer| > 0 && buffer[|buffer| - 1] >= 128 && buffer[..|buffer| - 1] + [buffer[|buffer| - 1] - 128] == r
  }

  method EncodeTag(s: OStream, wireType: nat, tag: nat) returns (ok: bool)
    requires s.Valid()
    modifies s`out, s`bytesWritten
    ensures s.Valid() && ok == old(s.Room(|TagBytes(tag, wireType)|))
    ensures ok ==> s.Added(old(s.out), old(s.bytesWritten), TagBytes(tag, wireType))
  {
    ok := EncodeVarint(s, tag * 8 + wireType);
  }

  /** pb_encode_string: the length, then the bytes. */
  method EncodeString(s: OStream, b: Bytes) returns (ok: bool)
    requires s.Valid()
    modifies s`out, s`bytesWritten
    ensures s.Valid() && ok == old(s.Room(|Prefixed(b)|))
    ensures ok ==> s.Added(old(s.out), old(s.bytesWritten), Prefixed(b))
  {
    hide Varint;
    ok := EncodeVarint(s, |b|);
    if !ok {
      return;
    }
    AddedTwice(old(s.out), Varint(|b|), b);
    ok := s.Write(b);
  }

  method EncodeScalar(s: OStream, k: Kind, n: int) returns (ok: bool)
    requires s.Valid() && Packable(k) && ScalarOk(k, n)
    modifies s`out, s`bytesWritten
    ensures s.Valid() && ok == old(s.Room(|ScalarBytes(k, n)|))
    ensures ok ==> s.Added(old(s.out), old(s.bytesWritten), ScalarBytes(k, n))
  {
    hide Varint, EncodeFixed32;
    match k
    case Bool => ok := EncodeVarint(s, if n != 0 then 1 else 0);
    case Signed(_) => ok := EncodeVarint(s, if n < 0 then n + TWO_64 else n);
    case Unsigned(_) => ok := EncodeVarint(s, n);
    case ZigZagged(_) =>
      var zigzagged := if n < 0 then TWO_64 - 1 - (2 * n + TWO_64) % TWO_64 else 2 * n;
      ok := EncodeVarint(s, zigzagged);
    case Fixed32 => ok := s.Write(EncodeFixed32(n));
    case Fixed64 => ok := s.Write(Fixed64Bytes(n));
  }

  // ------------------------------------------------------------ values, fields, messages

  method EncodeValue(s: OStream, k: Kind, v: Value) returns (ok: bool)
    requires s.Valid() && Typed(k, v, false)
    modifies s`out, s`bytesWritten
    ensures s.Valid() && ok == (Typed(k, v, true) && old(s.Room(|ValueBytes(k, v)|)))
    ensures ok ==> s.Added(old(s.out), old(s.bytesWritten), ValueBytes(k, v))
    decreases KindHeight(k), 1
  {
    hide MessageBytes, Prefixed, ScalarBytes, TypedSlot;
    if Packable(k) {
      ok := EncodeScalar(s, k, v.n);
      return;
    }
    match k
    case ByteArray(capacity) =>
      if |v.b| > capacity {
        return false;
      }
      ok := EncodeString(s, v.b);
    case Text(_) => ok := EncodeString(s, v.b);
    case ByteBlock(_) => ok := EncodeString(s, v.b);
    case Submessage(fields) => ok := EncodeSubmessage(s, fields, v.slots);
  }

  /** First the size, from a stream that only counts; then the bytes, into a stream of that size. */
  method EncodeSubmessage(s: OStream, fields: seq<Field>, m: seq<Slot>) returns (ok: bool)
    requires s.Valid() && TypedMessage(fields, m, false)
    modifies s`out, s`bytesWritten
    ensures s.Valid() && ok == (TypedMessage(fields, m, true) && old(s.Room(|Prefixed(MessageBytes(fields, m))|)))
    ensures ok ==> s.Added(old(s.out), old(s.bytesWritten), Prefixed(MessageBytes(fields, m)))
    decreases Height(fields) + 1, 0
  {
    hide Varint, MessageBytes, TypedSlot;
    var sizer := new OStream(true, 0);
    ok := EncodeMessage(sizer, fields, m);
    if !ok {
      return;
    }
    var size := sizer.bytesWritten;
    ok := EncodeVarint(s, size);
    if !ok {
      return;
    }
    AddedTwice(old(s.out), Varint(size), MessageBytes(fields, m));
    if s.sizing {
      ok := s.Skip(size);
      return;
    }
    if s.bytesWritten + size > s.maxSize {
      return false;
    }
    var substream := new OStream(false, size);
    var status := EncodeMessage(substream, fields, m);
    s.bytesWritten := s.bytesWritten + substream.bytesWritten;
    s.out := s.out + substream.out;
    ok := status && substream.bytesWritten == size;
  }

  /** pb_encode: the fields in the order of their descriptors. */
  method EncodeMessage(s: OStream, fields: seq<Field>, m: seq<Slot>) returns (ok: bool)
    requires s.Valid() && TypedMessage(fields, m, false)
    modifies s`out, s`bytesWritten
    ensures s.Valid() && ok == (TypedMessage(fields, m, true) && old(s.Room(|MessageBytes(fields, m)|)))
    ensures ok ==> s.Added(old(s.out), old(s.bytesWritten), MessageBytes(fields, m))
    decreases Height(fields), 7
  {
    hide SlotBytes, TypedSlot, MessageBytes, TypedMessage, OStream.Added, Height;
    NothingAdded(s);
    AllTyped(fields, m);
    if fields == [] {
      AllEncoded(fields, m);
      NothingEncoded(fields, m);
      return true;
    }
    var iter := new FieldIter(fields);
    ghost var i := 0;
    NothingEncoded(fields, m);
    while true
      invariant fresh(iter) && iter.Valid() && iter.fields == fields && iter.pos == i && i < |fields|
      invariant s.Valid() && s.Added(old(s.out), old(s.bytesWritten), MessageBytes(fields[..i], m[..i]))
      invariant forall j :: 0 <= j < i ==> TypedSlot(fields[j], m[j], true)
      decreases |fields| - i
    {
      ok := EncodeNext(s, fields, m, iter.pos, old(s.out), old(s.bytesWritten));
      if !ok {
        return;
      }
      var more := iter.Next();
      if !more {
        break;
      }
      i := i + 1;
    }
    AllEncoded(fields, m);
    AllAdded(s, old(s.out), old(s.bytesWritten), MessageBytes(fields, m));
  }

  /** One turn of its loop. */
  method EncodeNext(s: OStream, fields: seq<Field>, m: seq<Slot>, i: nat, ghost a: Bytes, ghost w: nat) returns (ok: bool)
    requires s.Valid() && TypedMessage(fields, m, false) && i < |fields| && s.Added(a, w, MessageBytes(fields[..i], m[..i]))
    modifies s`out, s`bytesWritten
    ensures s.Valid()
    ensures ok ==> TypedSlot(fields[i], m[i], true) && s.Added(a, w, MessageBytes(fields[..i + 1], m[..i + 1]))
    ensures !ok ==> !(TypedMessage(fields, m, true) && (s.sizing || w + |MessageBytes(fields, m)| <= s.maxSize))
    decreases Height(fields), 6
  {
    hide MessageBytes, SlotBytes, TypedSlot, Height;
    HeightOf(fields, i);
    FieldAdded(a, fields, m, i);
    ok := EncodeField(s, fields[i], m[i]);
  }

  lemma AllTyped(fields: seq<Field>, m: seq<Slot>)
    requires TypedMessage(fields, m, false)
    ensures |m| == |fields|
  {
  }

  lemma NothingAdded(s: OStream)
    ensures s.Added(s.out, s.bytesWritten, [])
  {
    assert s.out + [] == s.out;
  }

  /** What was taken had room. */
  lemma AllAdded(s: OStream, a: Bytes, w: nat, b: Bytes)
    requires s.Valid() && s.Added(a, w, b)
    ensures s.sizing || w + |b| <= s.maxSize
  {
  }

  lemma AllEncoded(fields: seq<Field>, m: seq<Slot>)
    requires |m| == |fields| && forall j :: 0 <= j < |fields| ==> TypedSlot(fields[j], m[j], true)
    ensures TypedMessage(fields, m, true) && MessageBytes(fields[..|fields|], m[..|m|]) == MessageBytes(fields, m)
  {
    hide TypedSlot, MessageBytes;
    assert fields[..|fields|] == fields && m[..|m|] == m;
  }

  /** pb_encode_tag_for_field, then the value. */
  method EncodeTagged(s: OStream, f: Field, v: Value) returns (ok: bool)
    requires s.Valid() && Typed(f.kind, v, false)
    modifies s`out, s`bytesWritten
    ensures s.Valid() && ok == (Typed(f.kind, v, true) && old(s.Room(|TagBytes(f.tag, WireType(f.kind)) + ValueBytes(f.kind, v)|)))
    ensures ok ==> s.Added(old(s.out), old(s.bytesWritten), TagBytes(f.tag, WireType(f.kind)) + ValueBytes(f.kind, v))
    decreases KindHeight(f.kind), 2
  {
    hide TagBytes, ValueBytes, Typed, WireType;
    AddedTwice(s.out, TagBytes(f.tag, WireType(f.kind)), ValueBytes(f.kind, v));
    ok := EncodeTag(s, WireType(f.kind), f.tag);
    if !ok {
      return;
    }
    ok := EncodeValue(s, f.kind, v);
  }

  method EncodeField(s: OStream, f: Field, slot: Slot) returns (ok: bool)
    requires s.Valid() && TypedSlot(f, slot, false)
    modifies s`out, s`bytesWritten
    ensures s.Valid() && ok == (TypedSlot(f, slot, true) && old(s.Room(|SlotBytes(f, slot)|)))
    ensures ok ==> s.Added(old(s.out), old(s.bytesWritten), SlotBytes(f, slot))
    decreases KindHeight(f.kind), 5
  {
    hide TagBytes, ValueBytes, Typed, WireType, ItemBytes, TaggedItems, ZeroValue;
    assert s.out + [] == s.out;
    match f.rule
    case Required =>
      ok := EncodeTagged(s, f, slot.v);
    case Optional =>
      ok := true;
      if slot.has {
        ok := EncodeTagged(s, f, slot.v);
      }
    case Singular =>
      ok := true;
      if !ZeroValue(f.kind, slot.v) {
        ok := EncodeTagged(s, f, slot.v);
      } else {
        ZeroFits(f.kind, slot.v);
      }
    case Repeated(capacity) =>
      ok := EncodeArray(s, f, capacity, slot.items);
  }

  /** encode_array: scalars packed under one tag, everything else one by one. */
  method EncodeArray(s: OStream, f: Field, capacity: nat, items: seq<Value>) returns (ok: bool)
    requires s.Valid() && f.rule == Repeated(capacity) && TypedSlot(f, Many(items), false)
    modifies s`out, s`bytesWritten
    ensures s.Valid() && ok == (TypedSlot(f, Many(items), true) && old(s.Room(|SlotBytes(f, Many(items))|)))
    ensures ok ==> s.Added(old(s.out), old(s.bytesWritten), SlotBytes(f, Many(items)))
    decreases KindHeight(f.kind), 4
  {
    hide TagBytes, ValueBytes, Typed, WireType, ItemBytes, TaggedItems, Prefixed;
    assert s.out + [] == s.out;
    if |items| == 0 {
      return true;
    }
    if |items| > capacity {
      return false;
    }
    if Packable(f.kind) {
      ok := EncodePacked(s, f, items);
      ScalarsFit(f, capacity, items);
    } else {
      ok := EncodeUnpacked(s, f, items);
    }
  }

  method EncodePacked(s: OStream, f: Field, items: seq<Value>) returns (ok: bool)
    requires s.Valid() && Packable(f.kind) && forall j :: 0 <= j < |items| ==> Typed(f.kind, items[j], false)
    modifies s`out, s`bytesWritten
    ensures s.Valid() && ok == old(s.Room(|TagBytes(f.tag, 2) + Prefixed(ItemBytes(f.kind, items))|))
    ensures ok ==> s.Added(old(s.out), old(s.bytesWritten), TagBytes(f.tag, 2) + Prefixed(ItemBytes(f.kind, items)))
    decreases KindHeight(f.kind), 2
  {
    hide TagBytes, ValueBytes, Typed, ItemBytes, Varint;
    var size := PackedSize(f.kind, items);
    var t, l, b := TagBytes(f.tag, 2), Varint(size), ItemBytes(f.kind, items);
    AddedTwice(s.out, t, l);
    AddedTwice(s.out, t + l, b);
    Regroup(t, l, b);
    ok := EncodeTag(s, 2, f.tag);
    if !ok {
      return;
    }
    ok := EncodeVarint(s, size);
    if !ok {
      return;
    }
    if s.sizing {
      ok := s.Skip(size);
      return;
    }
    ok := EncodeItems(s, f.kind, items);
  }

  /** The total size of a packed array. */
  method PackedSize(k: Kind, items: seq<Value>) returns (size: nat)
    requires Packable(k) && forall j :: 0 <= j < |items| ==> Typed(k, items[j], false)
    ensures size == |ItemBytes(k, items)|
    decreases KindHeight(k), 2
  {
    hide ItemBytes, Typed;
    if k.Fixed32? {
      FixedSizes(k, items);
      size := 4 * |items|;
    } else if k.Fixed64? {
      FixedSizes(k, items);
      size := 8 * |items|;
    } else {
      var sizer := new OStream(true, 0);
      var _ := EncodeItems(sizer, k, items);
      size := sizer.bytesWritten;
    }
  }

  method EncodeItems(s: OStream, k: Kind, items: seq<Value>) returns (ok: bool)
    requires s.Valid() && Packable(k) && forall j :: 0 <= j < |items| ==> Typed(k, items[j], false)
    modifies s`out, s`bytesWritten
    ensures s.Valid() && ok == old(s.Room(|ItemBytes(k, items)|))
    ensures ok ==> s.Added(old(s.out), old(s.bytesWritten), ItemBytes(k, items))
  {
    hide ItemBytes, ValueBytes, Typed, ScalarBytes;
    NoItems(k, items);
    assert s.out + [] == s.out;
    for i := 0 to |items|
      invariant s.Valid() && s.Added(old(s.out), old(s.bytesWritten), ItemBytes(k, items[..i]))
    {
      ItemsStep(k, items, i);
      ItemsSplit(k, items, i + 1);
      ScalarValue(k, items[i]);
      AddedTwice(old(s.out), ItemBytes(k, items[..i]), ValueBytes(k, items[i]));
      ok := EncodeScalar(s, k, items[i].n);
      if !ok {
        return;
      }
    }
    assert items[..|items|] == items;
    ok := true;
  }

  method EncodeUnpacked(s: OStream, f: Field, items: seq<Value>) returns (ok: bool)
    requires s.Valid() && forall j :: 0 <= j < |items| ==> Typed(f.kind, items[j], false)
    modifies s`out, s`bytesWritten
    ensures s.Valid()
    ensures ok == ((forall j :: 0 <= j < |items| ==> Typed(f.kind, items[j], true)) && old(s.Room(|TaggedItems(f, items)|)))
    ensures ok ==> s.Added(old(s.out), old(s.bytesWritten), TaggedItems(f, items))
    decreases KindHeight(f.kind), 3
  {
    hide TaggedItems, ValueBytes, Typed, TagBytes, WireType;
    NoTagged(f, items);
    assert s.out + [] == s.out;
    for i := 0 to |items|
      invariant s.Valid() && s.Added(old(s.out), old(s.bytesWritten), TaggedItems(f, items[..i]))
      invariant forall j :: 0 <= j < i ==> Typed(f.kind, items[j], true)
    {
      TaggedStep(f, items, i);
      TaggedSplit(f, items, i + 1);
      ghost var t := TagBytes(f.tag, WireType(f.kind)) + ValueBytes(f.kind, items[i]);
      AddedTwice(old(s.out), TaggedItems(f, items[..i]), t);
      ok := EncodeTagged(s, f, items[i]);
      if !ok {
        return;
      }
    }
    assert items[..|items|] == items;
    ok := true;
  }

  // ------------------------------------------------------------ about arrays

  lemma ScalarValue(k: Kind, v: Value)
    requires Packable(k) && Typed(k, v, false)
    ensures v.Num? && ScalarOk(k, v.n) && ValueBytes(k, v) == ScalarBytes(k, v.n)
  {
  }

  lemma ScalarsFit(f: Field, capacity: nat, items: seq<Value>)
    requires Packable(f.kind) && forall j :: 0 <= j < |items| ==> Typed(f.kind, items[j], false)
    ensures forall j :: 0 <= j < |items| ==> Typed(f.kind, items[j], true)
  {
  }

  lemma NoItems(k: Kind, items: seq<Value>)
    ensures ItemBytes(k, items[..0]) == []
  {
  }

  lemma NoTagged(f: Field, items: seq<Value>)
    ensures TaggedItems(f, items[..0]) == []
  {
  }

  lemma {:induction false} ItemsSplit(k: Kind, items: seq<Value>, i: nat)
    requires i <= |items|
    ensures |ItemBytes(k, items)| == |ItemBytes(k, items[..i])| + |ItemBytes(k, items[i..])|
  {
    hide ItemBytes, ValueBytes;
    if i == 0 {
      NoItems(k, items);
      assert items[0..] == items;
    } else {
      ItemsSplit(k, items, i - 1);
      ItemsStep(k, items, i - 1);
    }
  }

  lemma {:induction false} TaggedSplit(f: Field, items: seq<Value>, i: nat)
    requires i <= |items|
    ensures |TaggedItems(f, items)| == |TaggedItems(f, items[..i])| + |TaggedItems(f, items[i..])|
  {
    hide TaggedItems, ValueBytes, TagBytes;
    if i == 0 {
      NoTagged(f, items);
      assert items[0..] == items;
    } else {
      TaggedSplit(f, items, i - 1);
      TaggedStep(f, items, i - 1);
    }
  }

  lemma {:induction false} FixedSizes(k: Kind, items: seq<Value>)
    requires (k.Fixed32? || k.Fixed64?) && forall j :: 0 <= j < |items| ==> Typed(k, items[j], false)
    ensures |ItemBytes(k, items)| == (if k.Fixed32? then 4 else 8) * |items|
  {
    if items != [] {
      FixedSizes(k, items[1..]);
      assert Typed(k, items[0], false);
    }
  }

  /** A zero value is within every capacity. */
  lemma {:induction false} ZeroFits(k: Kind, v: Value)
    requires ZeroValue(k, v) && Typed(k, v, false)
    ensures Typed(k, v, true)
    decreases k
  {
    if k.Submessage? {
      forall i | 0 <= i < |k.fields| ensures TypedSlot(k.fields[i], v.slots[i], true) { ZeroSlotFits(k.fields[i], v.slots[i]); }
    }
  }

  lemma {:induction false} ZeroSlotFits(f: Field, s: Slot)
    requires IsZero(f, s) && TypedSlot(f, s, false)
    ensures TypedSlot(f, s, true)
    decreases f
  {
    if f.rule.Singular? { ZeroFits(f.kind, s.v); }
  }

  /** Field i after those before it, and before those after it. */
  lemma FieldAdded(a: Bytes, fields: seq<Field>, m: seq<Slot>, i: nat)
    requires |m| == |fields| && i < |fields|
    ensures var front, one := MessageBytes(fields[..i], m[..i]), SlotBytes(fields[i], m[i]);
      MessageBytes(fields[..i + 1], m[..i + 1]) == front + one && a + front + one == a + MessageBytes(fields[..i + 1], m[..i + 1]) &&
      |front| + |one| <= |MessageBytes(fields, m)|
  {
    hide MessageBytes, SlotBytes;
    MessageStep(fields, m, i);
    MessageSplits(fields, m, i + 1);
    AddedTwice(a, MessageBytes(fields[..i], m[..i]), SlotBytes(fields[i], m[i]));
  }

  lemma NothingEncoded(fields: seq<Field>, m: seq<Slot>)
    requires |m| == |fields|
    ensures MessageBytes(fields[..0], m[..0]) == []
  {
  }
}
