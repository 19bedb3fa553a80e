/** Messages, their descriptors, and what they look like encoded. */
module PbFormat {
  import opened Coding

  datatype Kind =
    | Bool
    | Signed(size: nat)
    | Unsigned(size: nat)
    | ZigZagged(size: nat)
    | Fixed32
    | Fixed64
    | ByteArray(capacity: nat)
    | Text(capacity: nat)
    | ByteBlock(length: nat)
    | Submessage(fields: seq<Field>)

  /** Singular fields have no has_ flag: they are written unless they hold the zero value. */
  datatype Rule = Required | Optional | Singular | Repeated(capacity: nat)

  datatype Field = Field(tag: nat, rule: Rule, kind: Kind)

  datatype Value = Num(n: int) | Raw(b: Bytes) | Msg(slots: seq<Slot>)

  datatype Slot = One(v: Value) | Opt(has: bool, v: Value) | Many(items: seq<Value>)

  const MAX_TAG: nat := 0x2000_0000

  // ------------------------------------------------------------ well-formed messages

  /** Half the number of values of an integer of that many bytes. */
  function Half(size: nat): int {
    match size
    case 1 => 0x80
    case 2 => 0x8000
    case 4 => 0x8000_0000
    case 8 => 0x8000_0000_0000_0000
    case _ => 0
  }

  /** Scalars may be packed. */
  predicate Packable(k: Kind) {
    k.Bool? || k.Signed? || k.Unsigned? || k.ZigZagged? || k.Fixed32? || k.Fixed64?
  }

  ghost predicate ScalarOk(k: Kind, n: int) {
    match k
    case Bool => 0 <= n <= 1
    case Signed(s) => -Half(s) <= n < Half(s)
    case Unsigned(s) => 0 <= n < 2 * Half(s)
    case ZigZagged(s) => -Half(s) <= n < Half(s)
    case Fixed32 => 0 <= n < 0x1_0000_0000
    case Fixed64 => 0 <= n < TWO_64
    case _ => false
  }

  /** v is a value of kind k, as the C types hold it; when fits, also within the declared capacities. */
  ghost predicate Typed(k: Kind, v: Value, fits: bool)
    decreases k
  {
    if Packable(k) then v.Num? && ScalarOk(k, v.n)
    else
      match k
      case ByteArray(c) => v.Raw? && (fits ==> |v.b| <= c)
      case Text(c) => v.Raw? && |v.b| < c && forall x :: x in v.b ==> x != 0
      case ByteBlock(n) => v.Raw? && |v.b| == n
      case Submessage(fs) =>
        v.Msg? && |v.slots| == |fs| && forall i :: 0 <= i < |fs| ==> TypedSlot(fs[i], v.slots[i], fits)
      case _ => false
  }

  ghost predicate TypedSlot(f: Field, s: Slot, fits: bool)
    decreases f
  {
    match f.rule
    case Required => s.One? && Typed(f.kind, s.v, fits)
    case Optional => s.Opt? && Typed(f.kind, s.v, fits && s.has)
    case Singular => s.One? && Typed(f.kind, s.v, fits)
    case Repeated(c) =>
      s.Many? && (fits ==> |s.items| <= c) && forall j :: 0 <= j < |s.items| ==> Typed(f.kind, s.items[j], fits)
  }

  ghost predicate TypedMessage(fs: seq<Field>, m: seq<Slot>, fits: bool) {
    |m| == |fs| && forall i :: 0 <= i < |fs| ==> TypedSlot(fs[i], m[i], fits)
  }

  /** Tags are in range, none is used twice, and the sizes of members are possible, at any depth. */
  ghost predicate FieldsOk(fs: seq<Field>)
    decreases fs
  {
    (forall i :: 0 <= i < |fs| ==> FieldOk(fs[i])) && forall i, j :: 0 <= i < j < |fs| ==> fs[i].tag != fs[j].tag
  }

  ghost predicate FieldOk(f: Field)
    decreases f
  {
    1 <= f.tag < MAX_TAG && KindOk(f.kind)
  }

  ghost predicate KindOk(k: Kind)
    decreases k
  {
    match k
    case Signed(s) => Half(s) > 0
    case Unsigned(s) => Half(s) > 0
    case ZigZagged(s) => Half(s) > 0
    case Text(c) => c > 0
    case Submessage(fs) => FieldsOk(fs)
    case _ => true
  }

  // ------------------------------------------------------------ defaults

  /** What pb_message_set_to_defaults leaves: zeros, no elements, has_ flags down. */
  function Default(k: Kind): Value
    decreases k
  {
    match k
    case ByteArray(_) => Raw([])
    case Text(_) => Raw([])
    case ByteBlock(n) => Raw(seq(n, _ => 0))
    case Submessage(fs) => Msg(seq(|fs|, i requires 0 <= i < |fs| => DefaultSlot(fs[i])))
    case _ => Num(0)
  }

  function DefaultSlot(f: Field): Slot
    decreases f
  {
    match f.rule
    case Required => One(Default(f.kind))
    case Optional => Opt(false, Default(f.kind))
    case Singular => One(Default(f.kind))
    case Repeated(_) => Many([])
  }

  function Defaults(fs: seq<Field>): seq<Slot> {
    seq(|fs|, i requires 0 <= i < |fs| => DefaultSlot(fs[i]))
  }

  /** pb_check_proto3_default_value: nothing of the field needs to be written. */
  predicate IsZero(f: Field, s: Slot)
    decreases f
  {
    match f.rule
    case Required => false
    case Optional => s.Opt? && !s.has
    case Singular => s.One? && ZeroValue(f.kind, s.v)
    case Repeated(_) => s.Many? && s.items == []
  }

  predicate ZeroValue(k: Kind, v: Value)
    decreases k
  {
    match k
    case ByteArray(_) => v.Raw? && v.b == []
    case Text(_) => v.Raw? && v.b == []
    case ByteBlock(n) => n == 0
    case Submessage(fs) => v.Msg? && |v.slots| == |fs| && forall i :: 0 <= i < |fs| ==> IsZero(fs[i], v.slots[i])
    case _ => v.Num? && v.n == 0
  }

  // ------------------------------------------------------------ up to the contents of absent fields

  /** v with every absent optional field emptied. */
  function NormalValue(k: Kind, v: Value): Value
    decreases k
  {
    if k.Submessage? && v.Msg? && |v.slots| == |k.fields| then
      Msg(seq(|k.fields|, i requires 0 <= i < |k.fields| => Normal(k.fields[i], v.slots[i])))
    else v
  }

  function Normal(f: Field, s: Slot): Slot
    decreases f
  {
    match s
    case One(v) => One(NormalValue(f.kind, v))
    case Opt(has, v) => if has then Opt(true, NormalValue(f.kind, v)) else Opt(false, Default(f.kind))
    case Many(items) => Many(seq(|items|, j requires 0 <= j < |items| => NormalValue(f.kind, items[j])))
  }

  function NormalMessage(fs: seq<Field>, m: seq<Slot>): seq<Slot>
    requires |m| == |fs|
  {
    seq(|fs|, i requires 0 <= i < |fs| => Normal(fs[i], m[i]))
  }

  // ------------------------------------------------------------ the wire format

  function WireType(k: Kind): nat {
    match k
    case Bool => 0
    case Signed(_) => 0
    case Unsigned(_) => 0
    case ZigZagged(_) => 0
    case Fixed64 => 1
    case Fixed32 => 5
    case _ => 2
  }

  function TagBytes(tag: nat, wireType: nat): Bytes {
    Varint(tag * 8 + wireType)
  }

  /** A negative number as the 64-bit pattern that stands for it. */
  function AsUnsigned(n: int): int {
    if n < 0 then n + TWO_64 else n
  }

  function ZigZag(n: int): int {
    if n < 0 then -2 * n - 1 else 2 * n
  }

  function ScalarBytes(k: Kind, n: int): Bytes {
    match k
    case Signed(_) => Varint(NatOf(AsUnsigned(n)))
    case ZigZagged(_) => Varint(ZigZag(n))
    case Fixed32 => if 0 <= n < 0x1_0000_0000 then EncodeFixed32(n) else []
    case Fixed64 => if 0 <= n < TWO_64 then Fixed64Bytes(n) else []
    case _ => Varint(NatOf(n))
  }

  function NatOf(n: int): nat {
    if n < 0 then 0 else n
  }

  function ValueBytes(k: Kind, v: Value): Bytes
    decreases k, 0
  {
    match v
    case Num(n) => ScalarBytes(k, n)
    case Raw(b) => Prefixed(b)
    case Msg(slots) => if k.Submessage? && |slots| == |k.fields| then Prefixed(MessageBytes(k.fields, slots)) else []
  }

  function MessageBytes(fs: seq<Field>, m: seq<Slot>): Bytes
    requires |m| == |fs|
    decreases fs, 1
  {
    if fs == [] then []
    else SlotBytes(fs[0], m[0]) + MessageBytes(fs[1..], m[1..])
  }

  function ItemBytes(k: Kind, items: seq<Value>): Bytes
    decreases k, |items| + 1
  {
    if items == [] then [] else ValueBytes(k, items[0]) + ItemBytes(k, items[1..])
  }

  /** Items each under its own tag. */
  function TaggedItems(f: Field, items: seq<Value>): Bytes
    decreases f, |items|
  {
    if items == [] then []
    else TagBytes(f.tag, WireType(f.kind)) + ValueBytes(f.kind, items[0]) + TaggedItems(f, items[1..])
  }

  function SlotBytes(f: Field, s: Slot): Bytes
    decreases f, if s.Many? then |s.items| + 1 else 0
  {
    match s
    case One(v) =>
      if f.rule.Singular? && ZeroValue(f.kind, v) then [] else TagBytes(f.tag, WireType(f.kind)) + ValueBytes(f.kind, v)
    case Opt(has, v) => if has then TagBytes(f.tag, WireType(f.kind)) + ValueBytes(f.kind, v) else []
    case Many(items) =>
      if items == [] then []
      else if Packable(f.kind) then TagBytes(f.tag, 2) + Prefixed(ItemBytes(f.kind, items))
      else TaggedItems(f, items)
  }

  // ------------------------------------------------------------ how deep messages nest

  function KindHeight(k: Kind): nat
    decreases k
  {
    if k.Submessage? then 1 + Height(k.fields) else 0
  }

  function FieldHeight(f: Field): nat
    decreases f
  {
    KindHeight(f.kind)
  }

  function Height(fs: seq<Field>): nat
    decreases fs
  {
    if fs == [] then 0
    else
      var a, b := FieldHeight(fs[0]), Height(fs[1..]);
      if a < b then b else a
  }

  lemma {:induction false} HeightOf(fs: seq<Field>, i: nat)
    requires i < |fs|
    ensures KindHeight(fs[i].kind) <= Height(fs)
    decreases fs
  {
    if i > 0 { HeightOf(fs[1..], i - 1); }
  }

  // ------------------------------------------------------------ parts of an encoded message

  /** The encoding from field i on follows that of the fields before it. */
  lemma {:induction false} MessageSplits(fs: seq<Field>, m: seq<Slot>, i: nat)
    requires |m| == |fs| && i <= |fs|
    ensures MessageBytes(fs, m) == MessageBytes(fs[..i], m[..i]) + MessageBytes(fs[i..], m[i..])
    decreases |fs|
  {
    hide SlotBytes;
    if i == 0 {
      assert fs[..0] == [] && m[..0] == [] && fs[0..] == fs && m[0..] == m;
    } else {
      MessageSplits(fs[1..], m[1..], i - 1);
      assert fs[1..][..i - 1] == fs[..i][1..] && m[1..][..i - 1] == m[..i][1..];
      assert fs[1..][i - 1..] == fs[i..] && m[1..][i - 1..] == m[i..];
      assert fs[..i][0] == fs[0] && m[..i][0] == m[0];
      Regroup(SlotBytes(fs[0], m[0]), MessageBytes(fs[..i][1..], m[..i][1..]), MessageBytes(fs[i..], m[i..]));
    }
  }

  lemma Regroup(x: Bytes, y: Bytes, z: Bytes)
    ensures x + (y + z) == x + y + z
  {
  }

  lemma MessageStep(fs: seq<Field>, m: seq<Slot>, i: nat)
    requires |m| == |fs| && i < |fs|
    ensures MessageBytes(fs[..i + 1], m[..i + 1]) == MessageBytes(fs[..i], m[..i]) + SlotBytes(fs[i], m[i])
    ensures MessageBytes(fs[i..], m[i..]) == SlotBytes(fs[i], m[i]) + MessageBytes(fs[i + 1..], m[i + 1..])
  {
    hide SlotBytes;
    var a, b := fs[..i + 1], m[..i + 1];
    MessageSplits(a, b, i);
    assert a[..i] == fs[..i] && b[..i] == m[..i] && a[i..] == [fs[i]] && b[i..] == [m[i]];
    LastField(fs[i], m[i]);
    assert fs[i..][1..] == fs[i + 1..] && m[i..][1..] == m[i + 1..];
  }

  lemma LastField(f: Field, s: Slot)
    ensures MessageBytes([f], [s]) == SlotBytes(f, s)
  {
    hide SlotBytes;
    assert [f][1..] == [] && [s][1..] == [];
    assert SlotBytes(f, s) + [] == SlotBytes(f, s);
  }

  lemma {:induction false} ItemsStep(k: Kind, items: seq<Value>, i: nat)
    requires i < |items|
    ensures ItemBytes(k, items[..i + 1]) == ItemBytes(k, items[..i]) + ValueBytes(k, items[i])
    ensures ItemBytes(k, items[i..]) == ValueBytes(k, items[i]) + ItemBytes(k, items[i + 1..])
    decreases i
  {
    hide ValueBytes;
    assert items[i..][1..] == items[i + 1..];
    if i == 0 {
      assert items[..1] == [items[0]] && [items[0]][1..] == [] && items[..0] == [];
      assert ValueBytes(k, items[0]) + [] == [] + ValueBytes(k, items[0]);
    } else {
      ItemsStep(k, items[1..], i - 1);
      assert items[1..][..i] == items[..i + 1][1..] && items[1..][..i - 1] == items[..i][1..] && items[1..][i - 1] == items[i];
      Regroup(ValueBytes(k, items[0]), ItemBytes(k, items[1..][..i - 1]), ValueBytes(k, items[i]));
    }
  }

  lemma {:induction false} TaggedStep(f: Field, items: seq<Value>, i: nat)
    requires i < |items|
    ensures TaggedItems(f, items[..i + 1]) ==
      TaggedItems(f, items[..i]) + (TagBytes(f.tag, WireType(f.kind)) + ValueBytes(f.kind, items[i]))
    ensures TaggedItems(f, items[i..]) ==
      TagBytes(f.tag, WireType(f.kind)) + ValueBytes(f.kind, items[i]) + TaggedItems(f, items[i + 1..])
    decreases i
  {
    hide ValueBytes, TagBytes;
    var t := TagBytes(f.tag, WireType(f.kind));
    assert items[i..][1..] == items[i + 1..];
    if i == 0 {
      assert items[..1] == [items[0]] && [items[0]][1..] == [] && items[..0] == [];
      assert t + ValueBytes(f.kind, items[0]) + [] == [] + (t + ValueBytes(f.kind, items[0]));
    } else {
      TaggedStep(f, items[1..], i - 1);
      assert items[1..][..i] == items[..i + 1][1..] && items[1..][..i - 1] == items[..i][1..] && items[1..][i - 1] == items[i];
      Regroup(t + ValueBytes(f.kind, items[0]), TaggedItems(f, items[1..][..i - 1]), t + ValueBytes(f.kind, items[i]));
    }
  }
}
