/** An encoded message as the records the decoder takes it apart into, and what the message is after
    each of them. */
module PbRecords {
  import opened Coding
  import opened PbFormat
  import opened PbStreams

  // ------------------------------------------------------------ what memory holds

  /** v fits the memory of a value of kind k, used or not. */
  ghost predicate Stored(k: Kind, v: Value)
    decreases k
  {
    match k
    case Signed(s) => v.Num? && (Half(s) > 0 ==> ScalarOk(k, v.n))
    case Unsigned(s) => v.Num? && (Half(s) > 0 ==> ScalarOk(k, v.n))
    case ZigZagged(s) => v.Num? && (Half(s) > 0 ==> ScalarOk(k, v.n))
    case ByteArray(c) => v.Raw? && |v.b| <= c
    case Text(c) => v.Raw? && (c > 0 ==> |v.b| < c) && forall x :: x in v.b ==> x != 0
    case ByteBlock(n) => v.Raw? && |v.b| == n
    case Submessage(fs) => v.Msg? && |v.slots| == |fs| && forall i :: 0 <= i < |fs| ==> StoredSlot(fs[i], v.slots[i])
    case _ => v.Num? && ScalarOk(k, v.n)
  }

  ghost predicate StoredSlot(f: Field, s: Slot)
    decreases f
  {
    match f.rule
    case Optional => s.Opt? && Stored(f.kind, s.v)
    case Repeated(c) => s.Many? && |s.items| <= c && forall j :: 0 <= j < |s.items| ==> Stored(f.kind, s.items[j])
    case _ => s.One? && Stored(f.kind, s.v)
  }

  ghost predicate StoredMessage(fs: seq<Field>, m: seq<Slot>) {
    |m| == |fs| && forall i :: 0 <= i < |fs| ==> StoredSlot(fs[i], m[i])
  }

  lemma {:induction false} DefaultIsStored(k: Kind)
    ensures Stored(k, Default(k))
    decreases k
  {
    if k.Submessage? {
      forall i | 0 <= i < |k.fields| ensures StoredSlot(k.fields[i], DefaultSlot(k.fields[i])) { DefaultSlotIsStored(k.fields[i]); }
    }
  }

  lemma {:induction false} DefaultSlotIsStored(f: Field)
    ensures StoredSlot(f, DefaultSlot(f))
    decreases f
  {
    DefaultIsStored(f.kind);
  }

  lemma DefaultsAreStored(fs: seq<Field>)
    ensures StoredMessage(fs, Defaults(fs))
  {
    forall i | 0 <= i < |fs| ensures StoredSlot(fs[i], DefaultSlot(fs[i])) { DefaultSlotIsStored(fs[i]); }
  }

  /** What memory holds can be encoded. */
  lemma {:induction false} StoredFits(k: Kind, v: Value)
    requires KindOk(k) && Stored(k, v)
    ensures Typed(k, v, true) && Typed(k, v, false)
    decreases k
  {
    if k.Submessage? {
      forall i | 0 <= i < |k.fields| ensures TypedSlot(k.fields[i], v.slots[i], true) && TypedSlot(k.fields[i], v.slots[i], false) {
        StoredSlotFits(k.fields[i], v.slots[i]);
      }
    }
  }

  lemma {:induction false} StoredSlotFits(f: Field, s: Slot)
    requires FieldOk(f) && StoredSlot(f, s)
    ensures TypedSlot(f, s, true) && TypedSlot(f, s, false)
    decreases f
  {
    if f.rule.Repeated? {
      forall j | 0 <= j < |s.items| ensures Typed(f.kind, s.items[j], true) && Typed(f.kind, s.items[j], false) {
        StoredFits(f.kind, s.items[j]);
      }
    } else {
      StoredFits(f.kind, s.v);
    }
  }

  // ------------------------------------------------------------ records of a field

  /** How often the field's tag is written. */
  function RecordCount(f: Field, s: Slot): nat {
    match s
    case One(v) => if f.rule.Singular? && ZeroValue(f.kind, v) then 0 else 1
    case Opt(has, _) => if has then 1 else 0
    case Many(items) => if Packable(f.kind) && items != [] then 1 else |items|
  }

  function RecordWire(f: Field, s: Slot): nat {
    if s.Many? && Packable(f.kind) then 2 else WireType(f.kind)
  }

  /** What follows the tag for the j-th time. */
  function Payload(f: Field, s: Slot, j: nat): Bytes {
    match s
    case One(v) => ValueBytes(f.kind, v)
    case Opt(_, v) => ValueBytes(f.kind, v)
    case Many(items) =>
      if Packable(f.kind) then Prefixed(ItemBytes(f.kind, items))
      else if j < |items| then ValueBytes(f.kind, items[j])
      else []
  }

  /** The records of a field from the j-th on. */
  function RecordsFrom(f: Field, s: Slot, j: nat): Bytes
    decreases RecordCount(f, s) - j
  {
    if j >= RecordCount(f, s) then []
    else TagBytes(f.tag, RecordWire(f, s)) + Payload(f, s, j) + RecordsFrom(f, s, j + 1)
  }

  lemma {:induction false} SlotIsRecords(f: Field, s: Slot)
    ensures RecordsFrom(f, s, 0) == SlotBytes(f, s)
  {
    hide ValueBytes, TagBytes, Packable, ItemBytes, Prefixed, ZeroValue, TaggedItems;
    assert RecordsFrom(f, s, 1) == [] || RecordCount(f, s) > 1;
    assert RecordCount(f, s) == 1 ==> RecordsFrom(f, s, 0) == TagBytes(f.tag, RecordWire(f, s)) + Payload(f, s, 0) + RecordsFrom(f, s, 1);
    if s.Many? && !Packable(f.kind) {
      TaggedAreRecords(f, s.items, 0);
      assert s.items[0..] == s.items;
      if s.items == [] { assert RecordsFrom(f, s, 0) == []; }
    }
  }

  lemma {:induction false} TaggedAreRecords(f: Field, items: seq<Value>, j: nat)
    requires j <= |items| && !Packable(f.kind)
    ensures RecordsFrom(f, Many(items), j) == TaggedItems(f, items[j..])
    decreases |items| - j
  {
    hide ValueBytes, TagBytes, Packable, WireType;
    if j < |items| {
      TaggedAreRecords(f, items, j + 1);
      TaggedStep(f, items, j);
    }
  }

  /** The field with the first n of its items, or, when n is 1, with its value. */
  function Filled(f: Field, s: Slot, n: nat): Slot {
    if n == 0 then DefaultSlot(f)
    else
      match s
      case Many(items) => Many(NormalItems(f.kind, if n > |items| then items else items[..n]))
      case _ => Normal(f, s)
  }

  function NormalItems(k: Kind, items: seq<Value>): seq<Value> {
    seq(|items|, j requires 0 <= j < |items| => NormalValue(k, items[j]))
  }

  /** With n items the field is complete; a singular field that holds zero may be left out. */
  ghost predicate Complete(f: Field, s: Slot, n: nat) {
    match s
    case One(v) => n == 1 || (n == 0 && f.rule.Singular? && ZeroValue(f.kind, v))
    case Opt(has, _) => n == if has then 1 else 0
    case Many(items) => n == |items|
  }

  lemma FilledComplete(f: Field, s: Slot, n: nat)
    requires TypedSlot(f, s, true) && Complete(f, s, n)
    ensures Filled(f, s, n) == Normal(f, s)
  {
    hide Typed, NormalValue;
    match s
    case One(v) => if n == 0 { ZeroIsDefault(f.kind, v); }
    case Opt(_, _) =>
    case Many(items) => assert items[..|items|] == items;
  }

  /** A field that is not written has its default value. */
  lemma {:induction false} ZeroIsDefault(k: Kind, v: Value)
    requires ZeroValue(k, v) && Typed(k, v, true)
    ensures NormalValue(k, v) == Default(k)
    decreases k
  {
    if k.Submessage? {
      forall i | 0 <= i < |k.fields| ensures Normal(k.fields[i], v.slots[i]) == DefaultSlot(k.fields[i]) {
        ZeroSlotIsDefault(k.fields[i], v.slots[i]);
      }
    }
  }

  lemma {:induction false} ZeroSlotIsDefault(f: Field, s: Slot)
    requires IsZero(f, s) && TypedSlot(f, s, true)
    ensures Normal(f, s) == DefaultSlot(f)
    decreases f
  {
    if f.rule.Singular? { ZeroIsDefault(f.kind, s.v); }
  }

  // ------------------------------------------------------------ records of a message

  /** What is left of the message from record j of field i on. */
  function Remaining(fs: seq<Field>, m: seq<Slot>, i: nat, j: nat): Bytes
    requires |m| == |fs|
  {
    if i >= |fs| then [] else RecordsFrom(fs[i], m[i], j) + MessageBytes(fs[i + 1..], m[i + 1..])
  }

  /** Of field t, the number of records before record j of field i. */
  function Taken(fs: seq<Field>, m: seq<Slot>, i: nat, j: nat, t: nat): nat
    requires |m| == |fs| && t < |fs|
  {
    if t < i then RecordCount(fs[t], m[t]) else if t == i then j else 0
  }

  lemma FirstRecord(fs: seq<Field>, m: seq<Slot>)
    requires |m| == |fs|
    ensures Remaining(fs, m, 0, 0) == MessageBytes(fs, m)
  {
    hide SlotBytes, MessageBytes, RecordsFrom;
    if fs != [] {
      SlotIsRecords(fs[0], m[0]);
      MessageStep(fs, m, 0);
      assert fs[0..] == fs && m[0..] == m;
    } else {
      NoFields(fs, m);
    }
  }

  lemma NoFields(fs: seq<Field>, m: seq<Slot>)
    requires |m| == |fs| == 0
    ensures MessageBytes(fs, m) == []
  {
  }

  /** The next record may be some fields further on. */
  lemma {:induction false} NextRecord(fs: seq<Field>, m: seq<Slot>, i: nat, j: nat) returns (x: nat, y: nat)
    requires |m| == |fs| && (i < |fs| ==> j <= RecordCount(fs[i], m[i]))
    ensures Remaining(fs, m, x, y) == Remaining(fs, m, i, j)
    ensures if x < |fs| then y < RecordCount(fs[x], m[x]) else Remaining(fs, m, x, y) == []
    ensures forall t :: 0 <= t < |fs| ==> Taken(fs, m, x, y, t) == Taken(fs, m, i, j, t)
    decreases |fs| - i
  {
    hide MessageBytes, RecordCount, SlotBytes, Payload, TagBytes;
    x, y := i, j;
    if i < |fs| && j >= RecordCount(fs[i], m[i]) {
      assert RecordsFrom(fs[i], m[i], j) == [];
      if i + 1 < |fs| {
        hide RecordsFrom;
        MessageStep(fs, m, i + 1);
        SlotIsRecords(fs[i + 1], m[i + 1]);
      } else {
        NoFields(fs[i + 1..], m[i + 1..]);
      }
      assert forall t :: 0 <= t < |fs| ==> Taken(fs, m, i + 1, 0, t) == Taken(fs, m, i, j, t);
      x, y := NextRecord(fs, m, i + 1, 0);
    }
  }

  lemma RecordAt(fs: seq<Field>, m: seq<Slot>, i: nat, j: nat)
    requires |m| == |fs| && i < |fs| && j < RecordCount(fs[i], m[i])
    ensures var r, tag := Remaining(fs, m, i, j), TagBytes(fs[i].tag, RecordWire(fs[i], m[i]));
      r != [] && Starts(r, tag) && Starts(Past(r, tag), Payload(fs[i], m[i], j)) &&
      Past(Past(r, tag), Payload(fs[i], m[i], j)) == Remaining(fs, m, i, j + 1)
  {
    hide MessageBytes, RecordCount, TagBytes, Payload, RecordWire;
    var tag, p := TagBytes(fs[i].tag, RecordWire(fs[i], m[i])), Payload(fs[i], m[i], j);
    var rest := Remaining(fs, m, i, j + 1);
    var more, others := RecordsFrom(fs[i], m[i], j + 1), MessageBytes(fs[i + 1..], m[i + 1..]);
    assert RecordsFrom(fs[i], m[i], j) == tag + p + more;
    Regroup3(tag, p, more, others);
    ConcatStarts(tag, p + rest);
    ConcatStarts(p, rest);
    NotEmptyTag(fs[i].tag, RecordWire(fs[i], m[i]));
  }

  lemma Regroup3(a: Bytes, b: Bytes, c: Bytes, d: Bytes)
    ensures a + b + c + d == a + (b + (c + d))
  {
  }

  lemma ConcatStarts(x: Bytes, y: Bytes)
    ensures Starts(x + y, x) && Past(x + y, x) == y
  {
  }

  lemma NotEmptyTag(tag: nat, wireType: nat)
    ensures TagBytes(tag, wireType) != []
  {
  }
}
