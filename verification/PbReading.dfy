/** What reading bytes into a message does, record by record: fields may come in any order, more than once and in parts,
    into memory that may already hold something. */
module PbReading {
  import opened Coding
  import opened PbFormat
  import opened PbStreams
  import opened PbRecords
  import opened PbForeign
  import opened PbFields
  import opened PbRequired

  /** Each of the required fields that are kept track of is among those read. */
  ghost predicate RequiredIn(fs: seq<Field>, had: set<nat>) {
    forall i :: 0 <= i < |fs| && Tracked(fs, i) ==> i in had
  }

  /** The payload p, read into memory that holds dest, leaves v. A message is read into the one that is there, an element
      of an array into a new one; of anything else nothing stays. */
  ghost predicate ValueReads(k: Kind, dest: Value, element: bool, p: Bytes, v: Value)
    decreases k, 0
  {
    if k.Submessage? then
      v.Msg? && (!element ==> dest.Msg?) &&
      exists b: Bytes :: p == Prefixed(b) && Reads(k.fields, if element then Defaults(k.fields) else dest.slots, {}, b, v.slots)
    else Typed(k, v, true) && p == ValueBytes(k, v)
  }

  /** A record takes a field from s to t. */
  ghost predicate PartReads(f: Field, s: Slot, wireType: nat, p: Bytes, t: Slot)
    decreases f, 0
  {
    match f.rule
    case Optional => s.Opt? && t.Opt? && t.has && ValueReads(f.kind, s.v, false, p, t.v)
    case Repeated(c) =>
      s.Many? && t.Many? && |t.items| <= c && s.items <= t.items &&
      if wireType == 2 && Packable(f.kind) then
        (forall j :: |s.items| <= j < |t.items| ==> Typed(f.kind, t.items[j], true)) && p == Prefixed(ItemBytes(f.kind, t.items[|s.items|..]))
      else |t.items| == |s.items| + 1 && ValueReads(f.kind, Default(f.kind), true, p, t.items[|s.items|])
    case _ => s.One? && t.One? && ValueReads(f.kind, s.v, false, p, t.v)
  }

  /** A record at the front of r takes field x to t, and the rest is read from there. */
  ghost predicate OwnReads(fs: seq<Field>, cur: seq<Slot>, had: set<nat>, r: Bytes, m: seq<Slot>, x: nat, wireType: nat, p: Bytes, t: Slot)
    requires r != []
    decreases fs, |r|, 0
  {
    |cur| == |fs| && x < |fs| && wireType < 8 && PartReads(fs[x], cur[x], wireType, p, t) && Leads(r, fs[x].tag, wireType, p) &&
    Reads(fs, cur[x := t], had + {x}, Beyond(r, fs[x].tag, wireType, p), m)
  }

  /** An unknown field at the front of r is passed over. */
  ghost predicate UnknownReads(fs: seq<Field>, cur: seq<Slot>, had: set<nat>, r: Bytes, m: seq<Slot>, u: Unknown)
    requires r != []
    decreases fs, |r|, 0
  {
    Skippable(fs, u) && Leads(r, u.tag, u.wireType, u.payload) && Reads(fs, cur, had, Beyond(r, u.tag, u.wireType, u.payload), m)
  }

  /** Reading all of r takes the message from cur to m, and with the fields in had every required one is read. */
  ghost predicate Reads(fs: seq<Field>, cur: seq<Slot>, had: set<nat>, r: Bytes, m: seq<Slot>)
    decreases fs, |r|, 1
  {
    if r == [] then cur == m && |m| == |fs| && RequiredIn(fs, had)
    else
      || (exists u: Unknown :: UnknownReads(fs, cur, had, r, m, u))
      || (exists x: nat, wireType: nat, p: Bytes, t: Slot :: OwnReads(fs, cur, had, r, m, x, wireType, p, t))
  }

  lemma ReadsLength(fs: seq<Field>, cur: seq<Slot>, had: set<nat>, r: Bytes, m: seq<Slot>)
    requires Reads(fs, cur, had, r, m)
    ensures |cur| == |m| == |fs|
    decreases |r|
  {
    hide PartReads, Leads, Skippable, RequiredIn, Beyond;
    if r != [] {
      if u: Unknown :| UnknownReads(fs, cur, had, r, m, u) {
        ReadsLength(fs, cur, had, Beyond(r, u.tag, u.wireType, u.payload), m);
      } else {
        var x: nat, w: nat, p: Bytes, t: Slot :| OwnReads(fs, cur, had, r, m, x, w, p, t);
        ReadsLength(fs, cur[x := t], had + {x}, Beyond(r, fs[x].tag, w, p), m);
      }
    }
  }

  // ------------------------------------------------------------ encodings are read as what they encode

  /** m with the items that are done. */
  ghost predicate FilledTo(fs: seq<Field>, m: seq<Slot>, cur: seq<Slot>, done: seq<nat>) {
    |m| == |cur| == |done| == |fs| && forall t :: 0 <= t < |fs| ==> cur[t] == Filled(fs[t], m[t], done[t])
  }

  /** Every required field that is done has been read. */
  ghost predicate Visited(fs: seq<Field>, had: set<nat>, done: seq<nat>) {
    |done| == |fs| && forall t :: 0 <= t < |fs| && fs[t].rule.Required? && done[t] > 0 ==> t in had
  }

  lemma {:induction false} ValueIsRead(k: Kind, v: Value, element: bool, p: Bytes)
    requires KindOk(k) && Typed(k, v, true) && ValueIs(k, v, p)
    ensures ValueReads(k, Default(k), element, p, NormalValue(k, v))
    decreases k, |p|, 0
  {
    hide Encodes, Reads, Prefixed, TypedSlot, FieldsOk, ScalarOk, ValueBytes;
    if k.Submessage? {
      var b: Bytes :| p == Prefixed(b) && Encodes(k.fields, v.slots, b, Nothing(|k.fields|));
      WholeIsRead(k.fields, v.slots, b);
    }
  }

  lemma {:induction false} WholeIsRead(fs: seq<Field>, m: seq<Slot>, r: Bytes)
    requires FieldsOk(fs) && TypedMessage(fs, m, true) && Encodes(fs, m, r, Nothing(|fs|))
    ensures Reads(fs, Defaults(fs), {}, r, NormalMessage(fs, m))
    decreases fs, |r|, 2
  {
    hide Encodes, Reads, FieldsOk, TypedMessage, DefaultSlot, NormalMessage;
    assert |m| == |fs| by { MessageLength(fs, m); }
    EncodingIsRead(fs, m, r, Nothing(|fs|), Defaults(fs), {});
  }

  lemma MessageLength(fs: seq<Field>, m: seq<Slot>)
    requires TypedMessage(fs, m, true)
    ensures |m| == |fs|
  {
    hide TypedSlot;
  }

  lemma {:induction false} PartIsRead(f: Field, s: Slot, n: nat, wireType: nat, p: Bytes, n': nat)
    requires FieldOk(f) && TypedSlot(f, s, true) && Part(f, s, n, wireType, p, n')
    ensures wireType < 8 && PartReads(f, Filled(f, s, n), wireType, p, Filled(f, s, n'))
    decreases f, |p|, 0
  {
    hide Typed, KindOk, ValueIs, ValueReads, Default, NormalValue, ItemBytes, Prefixed;
    match s
    case One(v) => ValueIsRead(f.kind, v, false, p);
    case Opt(_, v) => ValueIsRead(f.kind, v, false, p);
    case Many(items) =>
      if wireType == 2 && Packable(f.kind) {
        PackedIsRead(f, s, n, p, n');
      } else {
        ValueIsRead(f.kind, items[n], true, p);
        NormalStep(f.kind, items, n);
      }
  }

  lemma PackedIsRead(f: Field, s: Slot, n: nat, p: Bytes, n': nat)
    requires TypedSlot(f, s, true) && s.Many? && Packable(f.kind) && Part(f, s, n, 2, p, n')
    ensures PartReads(f, Filled(f, s, n), 2, p, Filled(f, s, n'))
  {
    hide Typed, Default, NormalValue, ItemBytes, Prefixed;
    var items := s.items;
    ScalarsAreNormal(f.kind, items[..n]);
    ScalarsAreNormal(f.kind, items[..n']);
    assert Filled(f, s, n) == Many(items[..n]) && Filled(f, s, n') == Many(items[..n']);
    assert items[..n'][n..] == items[n..n'];
  }

  lemma ScalarsAreNormal(k: Kind, items: seq<Value>)
    requires Packable(k)
    ensures NormalItems(k, items) == items
  {
  }

  lemma NormalStep(k: Kind, items: seq<Value>, j: nat)
    requires j < |items|
    ensures NormalItems(k, items[..j + 1]) == NormalItems(k, items[..j]) + [NormalValue(k, items[j])]
    ensures j == 0 ==> NormalItems(k, items[..j]) == []
  {
  }

  /** Any encoding of what m has beyond the items that are done takes those to m. */
  lemma {:induction false} EncodingIsRead(fs: seq<Field>, m: seq<Slot>, r: Bytes, done: seq<nat>, cur: seq<Slot>, had: set<nat>)
    requires FieldsOk(fs) && TypedMessage(fs, m, true) && FilledTo(fs, m, cur, done) && Visited(fs, had, done) && Encodes(fs, m, r, done)
    ensures Reads(fs, cur, had, r, NormalMessage(fs, m))
    decreases fs, |r|, 1
  {
    hide FieldOk, TypedSlot, Part, PartReads, Leads, Skippable, Filled, Complete, NormalMessage, Beyond, RequiredIn;
    if r == [] {
      AllIsRead(fs, m, done, cur, had);
    } else if u: Unknown :| UnknownFirst(fs, m, r, done, u) {
      EncodingIsRead(fs, m, Beyond(r, u.tag, u.wireType, u.payload), done, cur, had);
      assert UnknownReads(fs, cur, had, r, NormalMessage(fs, m), u);
    } else {
      var x: nat, w: nat, p: Bytes, n: nat :| OwnFirst(fs, m, r, done, x, w, p, n);
      var t := Filled(fs[x], m[x], n);
      PayloadIsShorter(r, fs[x].tag, w, p);
      PartIsRead(fs[x], m[x], done[x], w, p, n);
      EncodingIsRead(fs, m, Beyond(r, fs[x].tag, w, p), done[x := n], cur[x := t], had + {x});
      assert OwnReads(fs, cur, had, r, NormalMessage(fs, m), x, w, p, t);
    }
  }

  lemma PayloadIsShorter(r: Bytes, tag: nat, wireType: nat, p: Bytes)
    requires Leads(r, tag, wireType, p)
    ensures |p| <= |r|
  {
  }

  lemma AllIsRead(fs: seq<Field>, m: seq<Slot>, done: seq<nat>, cur: seq<Slot>, had: set<nat>)
    requires TypedMessage(fs, m, true) && FilledTo(fs, m, cur, done) && Visited(fs, had, done)
    requires forall t :: 0 <= t < |fs| ==> Complete(fs[t], m[t], done[t])
    ensures cur == NormalMessage(fs, m) && RequiredIn(fs, had)
  {
    hide TypedSlot, Filled, Complete, Normal, CountRequired;
    forall t | 0 <= t < |fs| ensures cur[t] == Normal(fs[t], m[t]) && (fs[t].rule.Required? ==> t in had) {
      assert TypedSlot(fs[t], m[t], true);
      FilledComplete(fs[t], m[t], done[t]);
      if fs[t].rule.Required? { RequiredOnce(fs[t], m[t], done[t]); }
    }
  }

  lemma RequiredOnce(f: Field, s: Slot, n: nat)
    requires f.rule.Required? && TypedSlot(f, s, true) && Complete(f, s, n)
    ensures n == 1
  {
  }

  // ------------------------------------------------------------ parts are merged

  /** More fields read do no harm. */
  lemma {:induction false} MoreHad(fs: seq<Field>, cur: seq<Slot>, had: set<nat>, more: set<nat>, r: Bytes, m: seq<Slot>)
    requires Reads(fs, cur, had, r, m) && had <= more
    ensures Reads(fs, cur, more, r, m)
    decreases |r|
  {
    hide PartReads, Leads, Skippable, Beyond, Tracked;
    if r != [] {
      if u: Unknown :| UnknownReads(fs, cur, had, r, m, u) {
        MoreHad(fs, cur, had, more, Beyond(r, u.tag, u.wireType, u.payload), m);
        assert UnknownReads(fs, cur, more, r, m, u);
      } else {
        var x: nat, w: nat, p: Bytes, t: Slot :| OwnReads(fs, cur, had, r, m, x, w, p, t);
        MoreHad(fs, cur[x := t], had + {x}, more + {x}, Beyond(r, fs[x].tag, w, p), m);
        assert OwnReads(fs, cur, more, r, m, x, w, p, t);
      }
    }
  }

  lemma LongerLeads(r: Bytes, more: Bytes, tag: nat, wireType: nat, p: Bytes)
    requires Leads(r, tag, wireType, p)
    ensures Leads(r + more, tag, wireType, p) && Beyond(r + more, tag, wireType, p) == Beyond(r, tag, wireType, p) + more
  {
    hide TagBytes;
    var t := TagBytes(tag, wireType);
    LongerStarts(r, more, t);
    LongerStarts(Past(r, t), more, p);
  }

  lemma LongerStarts(r: Bytes, more: Bytes, x: Bytes)
    requires Starts(r, x)
    ensures Starts(r + more, x) && Past(r + more, x) == Past(r, x) + more
  {
    assert (r + more)[..|x|] == r[..|x|];
  }

  /** Reading two parts, one after the other into the same memory, is reading them joined: a message may be split
      between records, and a submessage given in several records is what its parts make together. */
  lemma {:induction false} PartsJoin(fs: seq<Field>, cur: seq<Slot>, had: set<nat>, a: Bytes, mid: seq<Slot>, b: Bytes, m: seq<Slot>)
    requires Reads(fs, cur, had, a, mid) && Reads(fs, mid, {}, b, m)
    ensures Reads(fs, cur, had, a + b, m)
    decreases |a|
  {
    hide PartReads, Leads, Skippable, Beyond, RequiredIn;
    if a == [] {
      assert a + b == b;
      MoreHad(fs, cur, {}, had, b, m);
    } else if u: Unknown :| UnknownReads(fs, cur, had, a, mid, u) {
      PartsJoin(fs, cur, had, Beyond(a, u.tag, u.wireType, u.payload), mid, b, m);
      LongerLeads(a, b, u.tag, u.wireType, u.payload);
      assert UnknownReads(fs, cur, had, a + b, m, u);
    } else {
      var x: nat, w: nat, p: Bytes, t: Slot :| OwnReads(fs, cur, had, a, mid, x, w, p, t);
      PartsJoin(fs, cur[x := t], had + {x}, Beyond(a, fs[x].tag, w, p), mid, b, m);
      LongerLeads(a, b, fs[x].tag, w, p);
      assert OwnReads(fs, cur, had, a + b, m, x, w, p, t);
    }
  }

  /** A submessage given in two records leaves what one record with both parts leaves. */
  lemma SubmessageParts(f: Field, s: Slot, t: Slot, u: Slot, w: nat, a: Bytes, b: Bytes)
    requires f.kind.Submessage? && !f.rule.Repeated? && PartReads(f, s, w, Prefixed(a), t) && PartReads(f, t, w, Prefixed(b), u)
    ensures PartReads(f, s, w, Prefixed(a + b), u)
  {
    hide Reads, Prefixed;
    var fs := f.kind.fields;
    SamePrefixed();
    PartsJoin(fs, s.v.slots, {}, a, t.v.slots, b, u.v.slots);
  }

  lemma SamePrefixed()
    ensures forall a: Bytes, b: Bytes :: Prefixed(a) == Prefixed(b) ==> a == b
  {
    forall a: Bytes, b: Bytes | Prefixed(a) == Prefixed(b) ensures a == b { PrefixedOnce(a, b); }
  }

  lemma PrefixedOnce(a: Bytes, b: Bytes)
    requires Prefixed(a) == Prefixed(b)
    ensures a == b
  {
    hide Varint;
    VarintFirst(|a|, |b|, a, b);
  }

  // ------------------------------------------------------------ the last one counts

  /** A field that holds one value, and no message. */
  predicate IsSingle(f: Field) {
    !f.rule.Repeated? && !f.kind.Submessage?
  }

  /** Memory of the field. */
  predicate Shaped(f: Field, s: Slot) {
    if f.rule.Optional? then s.Opt? else s.One?
  }

  lemma OldValueUnused(f: Field, s: Slot, s': Slot, w: nat, p: Bytes, t: Slot)
    requires IsSingle(f) && Shaped(f, s') && PartReads(f, s, w, p, t)
    ensures PartReads(f, s', w, p, t) && Shaped(f, t)
  {
    hide Typed, ValueBytes;
  }

  /** Reading all of r takes the message from cur to m, and a record of field x is among what is read. */
  ghost predicate Brings(fs: seq<Field>, cur: seq<Slot>, had: set<nat>, r: Bytes, m: seq<Slot>, x: nat)
    decreases |r|, 1
  {
    r != [] &&
    ((exists u: Unknown :: UnknownBrings(fs, cur, had, r, m, x, u)) ||
     exists y: nat, wireType: nat, p: Bytes, t: Slot :: OwnBrings(fs, cur, had, r, m, x, y, wireType, p, t))
  }

  ghost predicate UnknownBrings(fs: seq<Field>, cur: seq<Slot>, had: set<nat>, r: Bytes, m: seq<Slot>, x: nat, u: Unknown)
    requires r != []
    decreases |r|, 0
  {
    Skippable(fs, u) && Leads(r, u.tag, u.wireType, u.payload) && Brings(fs, cur, had, Beyond(r, u.tag, u.wireType, u.payload), m, x)
  }

  ghost predicate OwnBrings(fs: seq<Field>, cur: seq<Slot>, had: set<nat>, r: Bytes, m: seq<Slot>, x: nat, y: nat, wireType: nat, p: Bytes, t: Slot)
    requires r != []
    decreases |r|, 0
  {
    |cur| == |fs| && y < |fs| && wireType < 8 && PartReads(fs[y], cur[y], wireType, p, t) && Leads(r, fs[y].tag, wireType, p) &&
    if y == x then Reads(fs, cur[y := t], had + {y}, Beyond(r, fs[y].tag, wireType, p), m)
    else Brings(fs, cur[y := t], had + {y}, Beyond(r, fs[y].tag, wireType, p), m, x)
  }

  /** Whatever is read either brings the field or keeps it. */
  lemma {:induction false} BroughtOrKept(fs: seq<Field>, cur: seq<Slot>, had: set<nat>, r: Bytes, m: seq<Slot>, x: nat)
    requires Reads(fs, cur, had, r, m) && x < |fs|
    ensures |cur| == |m| == |fs| && (Brings(fs, cur, had, r, m, x) || m[x] == cur[x])
    decreases |r|
  {
    hide PartReads, Leads, Skippable, Beyond, RequiredIn;
    ReadsLength(fs, cur, had, r, m);
    if r != [] {
      if u: Unknown :| UnknownReads(fs, cur, had, r, m, u) {
        BroughtOrKept(fs, cur, had, Beyond(r, u.tag, u.wireType, u.payload), m, x);
        assert Brings(fs, cur, had, Beyond(r, u.tag, u.wireType, u.payload), m, x) ==> UnknownBrings(fs, cur, had, r, m, x, u);
      } else {
        var y: nat, w: nat, p: Bytes, t: Slot :| OwnReads(fs, cur, had, r, m, y, w, p, t);
        BroughtOrKept(fs, cur[y := t], had + {y}, Beyond(r, fs[y].tag, w, p), m, x);
        assert y == x || Brings(fs, cur[y := t], had + {y}, Beyond(r, fs[y].tag, w, p), m, x) ==> OwnBrings(fs, cur, had, r, m, x, y, w, p, t);
      }
    }
  }

  /** What the field held before is forgotten. */
  lemma {:induction false} LastCounts(fs: seq<Field>, cur: seq<Slot>, had: set<nat>, r: Bytes, m: seq<Slot>, x: nat, s: Slot)
    requires Brings(fs, cur, had, r, m, x) && x < |fs| && |cur| == |fs| && IsSingle(fs[x]) && Shaped(fs[x], s)
    ensures Reads(fs, cur[x := s], had, r, m)
    decreases |r|
  {
    hide PartReads, Leads, Skippable, Beyond, RequiredIn, IsSingle, Shaped;
    if u: Unknown :| UnknownBrings(fs, cur, had, r, m, x, u) {
      LastCounts(fs, cur, had, Beyond(r, u.tag, u.wireType, u.payload), m, x, s);
      assert UnknownReads(fs, cur[x := s], had, r, m, u);
    } else {
      var y: nat, w: nat, p: Bytes, t: Slot :| OwnBrings(fs, cur, had, r, m, x, y, w, p, t);
      if y == x {
        OldValueUnused(fs[x], cur[x], s, w, p, t);
        assert cur[x := s][x := t] == cur[x := t];
        assert OwnReads(fs, cur[x := s], had, r, m, x, w, p, t);
      } else {
        LastCounts(fs, cur[y := t], had + {y}, Beyond(r, fs[y].tag, w, p), m, x, s);
        assert cur[y := t][x := s] == cur[x := s][y := t];
        assert OwnReads(fs, cur[x := s], had, r, m, y, w, p, t);
      }
    }
  }

  /** Of a single field given several times the last one counts: another record of it in front of bytes that bring it
      changes nothing. */
  lemma EarlierIsForgotten(fs: seq<Field>, cur: seq<Slot>, had: set<nat>, x: nat, w: nat, p: Bytes, t: Slot, r: Bytes, m: seq<Slot>)
    requires Brings(fs, cur, had, r, m, x) && x < |fs| && |cur| == |fs| && IsSingle(fs[x])
    requires w < 8 && PartReads(fs[x], cur[x], w, p, t)
    ensures Reads(fs, cur, had, RecordBytes(fs[x].tag, w, p) + r, m)
  {
    hide PartReads, Leads, RecordBytes, Beyond, Reads, Brings, IsSingle, Shaped;
    ShapeOfRead(fs[x], cur[x], w, p, t);
    LastCounts(fs, cur, had, r, m, x, t);
    MoreHad(fs, cur[x := t], had, had + {x}, r, m);
    OneMoreRead(fs, cur, had, x, w, p, t, r, m);
  }

  /** An encoding brings each field it has something of. */
  lemma {:induction false} EncodingBrings(fs: seq<Field>, m: seq<Slot>, r: Bytes, done: seq<nat>, cur: seq<Slot>, had: set<nat>, x: nat)
    requires FieldsOk(fs) && TypedMessage(fs, m, true) && FilledTo(fs, m, cur, done) && Visited(fs, had, done) && Encodes(fs, m, r, done)
    requires x < |fs| && !Complete(fs[x], m[x], done[x])
    ensures Brings(fs, cur, had, r, NormalMessage(fs, m), x)
    decreases |r|
  {
    hide FieldOk, TypedSlot, Part, PartReads, Leads, Skippable, Filled, Complete, NormalMessage, Beyond, RequiredIn;
    if u: Unknown :| UnknownFirst(fs, m, r, done, u) {
      EncodingBrings(fs, m, Beyond(r, u.tag, u.wireType, u.payload), done, cur, had, x);
      assert UnknownBrings(fs, cur, had, r, NormalMessage(fs, m), x, u);
    } else {
      var y: nat, w: nat, p: Bytes, n: nat :| OwnFirst(fs, m, r, done, y, w, p, n);
      var t := Filled(fs[y], m[y], n);
      PartIsRead(fs[y], m[y], done[y], w, p, n);
      if y == x {
        EncodingIsRead(fs, m, Beyond(r, fs[y].tag, w, p), done[y := n], cur[y := t], had + {y});
      } else {
        EncodingBrings(fs, m, Beyond(r, fs[y].tag, w, p), done[y := n], cur[y := t], had + {y}, x);
      }
      assert OwnBrings(fs, cur, had, r, NormalMessage(fs, m), x, y, w, p, t);
    }
  }

  /** Any record of a single field in front of an encoding that has the field leaves the message it encodes. */
  lemma EncodingForgets(fs: seq<Field>, m: seq<Slot>, r: Bytes, x: nat, w: nat, p: Bytes, t: Slot)
    requires FieldsOk(fs) && TypedMessage(fs, m, true) && |m| == |fs| && Encodes(fs, m, r, Nothing(|fs|))
    requires x < |fs| && IsSingle(fs[x]) && !Complete(fs[x], m[x], 0) && w < 8 && PartReads(fs[x], DefaultSlot(fs[x]), w, p, t)
    ensures Reads(fs, Defaults(fs), {}, RecordBytes(fs[x].tag, w, p) + r, NormalMessage(fs, m))
  {
    hide FieldOk, TypedSlot, Encodes, Complete, PartReads, RecordBytes, Reads, Brings, IsSingle, NormalMessage, DefaultSlot;
    EncodingBrings(fs, m, r, Nothing(|fs|), Defaults(fs), {}, x);
    EarlierIsForgotten(fs, Defaults(fs), {}, x, w, p, t, r, NormalMessage(fs, m));
  }

  lemma ShapeOfRead(f: Field, s: Slot, w: nat, p: Bytes, t: Slot)
    requires IsSingle(f) && PartReads(f, s, w, p, t)
    ensures Shaped(f, t) && Shaped(f, s)
  {
    hide ValueReads;
  }

  lemma OneMoreRead(fs: seq<Field>, cur: seq<Slot>, had: set<nat>, x: nat, w: nat, p: Bytes, t: Slot, r: Bytes, m: seq<Slot>)
    requires |cur| == |fs| && x < |fs| && w < 8 && PartReads(fs[x], cur[x], w, p, t) && Reads(fs, cur[x := t], had + {x}, r, m)
    ensures Reads(fs, cur, had, RecordBytes(fs[x].tag, w, p) + r, m)
  {
    hide PartReads, Leads, RecordBytes, Beyond;
    RecordLeads(fs[x].tag, w, p, r);
    assert OwnReads(fs, cur, had, RecordBytes(fs[x].tag, w, p) + r, m, x, w, p, t);
  }
}
