/** Encoding and decoding undo each other. */
module PbRoundTrip {
  import opened Coding
  import opened PbFormat
  import opened PbEncode
  import opened PbStreams
  import opened PbRecords
  import opened PbDecode
  import opened PbForeign
  import opened PbRequired

  /** A message within its capacities can be encoded into enough room, and decodes to itself, but for the
      contents of absent fields. */
  method EncodeDecode(fields: seq<Field>, m: seq<Slot>, room: nat) returns (ok: bool, r: seq<Slot>)
    requires FieldsOk(fields) && TypedMessage(fields, m, false)
    ensures |MessageBytes(fields, m)| < 0x1_0000_0000 ==>
      ok == (TypedMessage(fields, m, true) && |MessageBytes(fields, m)| <= room) && (ok ==> r == NormalMessage(fields, m))
  {
    hide FieldsOk, TypedSlot, MessageBytes, NormalMessage, StoredMessage, RequiredRead, TagsAt, Sourced;
    var out := new OStream(false, room);
    ok := EncodeMessage(out, fields, m);
    r := m;
    if ok {
      assert out.out == MessageBytes(fields, m);
      var input := new IStream(out.out, 0, |out.out|);
      ghost var at;
      assert input.Rest() == MessageBytes(fields, m);
      if |out.out| < 0x1_0000_0000 { PlainIsRead(fields, m); }
      ok, r, at := Decode(input, fields, if |m| == |fields| then NormalMessage(fields, m) else []);
    }
  }

  lemma PlainIsRead(fields: seq<Field>, m: seq<Slot>)
    requires FieldsOk(fields) && TypedMessage(fields, m, true) && |MessageBytes(fields, m)| < 0x1_0000_0000
    ensures HoldsReads(fields, Defaults(fields), MessageBytes(fields, m), NormalMessage(fields, m))
  {
    hide FieldsOk, TypedSlot, MessageBytes, NormalMessage, HoldsReads, Defaults, Encodes;
    PlainHolds(fields, m, MessageBytes(fields, m));
    EncodingHolds(fields, m, MessageBytes(fields, m));
  }

  /** Any encoding of a message, whoever wrote it, decodes to it, but for the contents of absent fields. */
  method DecodeEncoding(fields: seq<Field>, data: Bytes, ghost m: seq<Slot>) returns (ok: bool, r: seq<Slot>)
    ensures HoldsEncoding(fields, m, data) ==> ok && |m| == |fields| && r == NormalMessage(fields, m)
  {
    hide HoldsEncoding, HoldsReads, NormalMessage, Defaults, StoredMessage, RequiredRead, TagsAt, Sourced;
    ghost var near := HoldsEncoding(fields, m, data);
    if near {
      EncodingLength(fields, m, data);
      EncodingHolds(fields, m, data);
    }
    var input := new IStream(data, 0, |data|);
    ghost var at;
    assert input.Rest() == data;
    ok, r, at := Decode(input, fields, if near then NormalMessage(fields, m) else []);
  }

  lemma EncodingLength(fields: seq<Field>, m: seq<Slot>, data: Bytes)
    requires HoldsEncoding(fields, m, data)
    ensures |m| == |fields|
  {
    hide TypedSlot, FieldsOk, Encodes;
  }

  /** Whatever decodes can be encoded again. */
  method DecodeEncode(fields: seq<Field>, data: Bytes) returns (decoded: bool, encoded: bool, m: seq<Slot>)
    requires FieldsOk(fields)
    ensures decoded ==> encoded && TypedMessage(fields, m, true)
  {
    hide MessageBytes, NormalMessage, RequiredRead, TagsAt, TypedSlot, StoredSlot, Sourced;
    var input := new IStream(data, 0, |data|);
    ghost var at;
    encoded := false;
    decoded, m, at := Decode(input, fields, []);
    if decoded {
      forall i | 0 <= i < |fields| ensures TypedSlot(fields[i], m[i], true) && TypedSlot(fields[i], m[i], false) {
        StoredSlotFits(fields[i], m[i]);
      }
      var sizer := new OStream(true, 0);
      encoded := EncodeMessage(sizer, fields, m);
    }
  }
}
