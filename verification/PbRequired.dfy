/** Required fields: how the decoder keeps track of them, and what that means for a message it accepts. */
module PbRequired {
  import opened Coding
  import opened PbFormat
  import opened PbFields
  import opened PbStreams

  const MAX_REQUIRED_FIELDS: nat := 64

  /** Required fields before a required one have smaller numbers. */
  lemma {:induction false} RankGrows(fs: seq<Field>, i: nat, j: nat)
    requires i < j <= |fs| && fs[i].rule.Required?
    ensures CountRequired(fs[..i]) < CountRequired(fs[..j])
    decreases j
  {
    assert fs[..j][..j - 1] == fs[..j - 1] && fs[..j][j - 1] == fs[j - 1];
    if i < j - 1 { RankGrows(fs, i, j - 1); }
  }

  /** Every number below the count is that of a required field. */
  lemma {:induction false} RankTaken(fs: seq<Field>, b: nat, n: nat) returns (i: nat)
    requires n <= |fs| && b < CountRequired(fs[..n])
    ensures i < n && fs[i].rule.Required? && CountRequired(fs[..i]) == b
    decreases n
  {
    assert fs[..n][..n - 1] == fs[..n - 1] && fs[..n][n - 1] == fs[n - 1];
    if b < CountRequired(fs[..n - 1]) {
      i := RankTaken(fs, b, n - 1);
    } else {
      i := n - 1;
    }
  }

  /** Field i is required, and one of those that are kept track of. */
  ghost predicate Tracked(fs: seq<Field>, i: nat) {
    i < |fs| && fs[i].rule.Required? && CountRequired(fs[..i]) < MAX_REQUIRED_FIELDS
  }

  /** seen are the numbers of the required fields among those whose tags were read. */
  ghost predicate SeenIs(fs: seq<Field>, at: map<nat, nat>, seen: set<nat>) {
    (forall i :: i in at && Tracked(fs, i) ==> CountRequired(fs[..i]) in seen) &&
    (forall b :: b in seen ==> exists i :: i in at && Tracked(fs, i) && CountRequired(fs[..i]) == b)
  }

  /** Each of the first 64 required fields has been read. */
  ghost predicate RequiredRead(fs: seq<Field>, at: map<nat, nat>) {
    forall i :: 0 <= i < |fs| && Tracked(fs, i) ==> i in at
  }

  function Limited(n: nat): nat {
    if n > MAX_REQUIRED_FIELDS then MAX_REQUIRED_FIELDS else n
  }

  /** Two required fields do not have the same number. */
  lemma OneRank(fs: seq<Field>, i: nat, j: nat)
    requires Tracked(fs, i) && Tracked(fs, j) && CountRequired(fs[..i]) == CountRequired(fs[..j])
    ensures i == j
  {
    hide CountRequired;
    if i < j { RankGrows(fs, i, j); }
    if j < i { RankGrows(fs, j, i); }
  }

  lemma TrackedIsCounted(fs: seq<Field>, i: nat)
    requires Tracked(fs, i)
    ensures CountRequired(fs[..i]) < Limited(CountRequired(fs))
  {
    hide CountRequired;
    assert fs[..|fs|] == fs;
    RankGrows(fs, i, |fs|);
  }

  /** The bits set are those of all required fields just when each has been read. */
  lemma SeenMeansRead(fs: seq<Field>, at: map<nat, nat>, seen: set<nat>)
    requires SeenIs(fs, at, seen)
    ensures forall b :: b in seen ==> b < Limited(CountRequired(fs))
    ensures (forall b :: 0 <= b < Limited(CountRequired(fs)) ==> b in seen) <==> RequiredRead(fs, at)
  {
    hide SeenIs, RequiredRead, CountRequired;
    SeenIsCounted(fs, at, seen);
    if forall b :: 0 <= b < Limited(CountRequired(fs)) ==> b in seen { AllSeenIsRead(fs, at, seen); }
    if RequiredRead(fs, at) {
      forall b | 0 <= b < Limited(CountRequired(fs)) ensures b in seen { RankIsSeen(fs, at, seen, b); }
    }
  }

  lemma SeenIsCounted(fs: seq<Field>, at: map<nat, nat>, seen: set<nat>)
    requires SeenIs(fs, at, seen)
    ensures forall b :: b in seen ==> b < Limited(CountRequired(fs))
  {
    hide CountRequired;
    forall b | b in seen ensures b < Limited(CountRequired(fs)) {
      var i :| i in at && Tracked(fs, i) && CountRequired(fs[..i]) == b;
      TrackedIsCounted(fs, i);
    }
  }

  lemma AllSeenIsRead(fs: seq<Field>, at: map<nat, nat>, seen: set<nat>)
    requires SeenIs(fs, at, seen) && forall b :: 0 <= b < Limited(CountRequired(fs)) ==> b in seen
    ensures RequiredRead(fs, at)
  {
    hide CountRequired;
    forall i | 0 <= i < |fs| && Tracked(fs, i) ensures i in at {
      TrackedIsCounted(fs, i);
      assert CountRequired(fs[..i]) in seen;
      var j :| j in at && Tracked(fs, j) && CountRequired(fs[..j]) == CountRequired(fs[..i]);
      OneRank(fs, i, j);
    }
  }

  lemma RankIsSeen(fs: seq<Field>, at: map<nat, nat>, seen: set<nat>, b: nat)
    requires SeenIs(fs, at, seen) && RequiredRead(fs, at) && b < Limited(CountRequired(fs))
    ensures b in seen
  {
    hide CountRequired;
    assert fs[..|fs|] == fs;
    var i := RankTaken(fs, b, |fs|);
    assert Tracked(fs, i);
  }

  /** Reading field i sets its bit. */
  lemma OneSeen(fs: seq<Field>, at: map<nat, nat>, seen: set<nat>, i: nat, p: nat)
    requires SeenIs(fs, at, seen) && i < |fs|
    ensures SeenIs(fs, at[i := p], if Tracked(fs, i) then seen + {CountRequired(fs[..i])} else seen)
  {
    hide CountRequired;
    var at', seen' := at[i := p], if Tracked(fs, i) then seen + {CountRequired(fs[..i])} else seen;
    forall b | b in seen' ensures exists j :: j in at' && Tracked(fs, j) && CountRequired(fs[..j]) == b {
      if b in seen {
        var j :| j in at && Tracked(fs, j) && CountRequired(fs[..j]) == b;
        assert j in at';
      } else {
        assert i in at';
      }
    }
  }

  /** The word of bits that has numbers from 32 * w on. */
  function SeenWord(seen: set<nat>, w: nat): set<nat> {
    set b | b in seen && b / 32 == w
  }

  predicate InRange(lo: nat, b: nat, hi: nat) {
    lo <= b < hi
  }

  function Numbers(lo: nat, hi: nat): (r: set<nat>)
    ensures forall b :: b in r <==> lo <= b < hi
  {
    set b: nat | b < hi && InRange(lo, b, hi)
  }

  /** Word w is as given just when all numbers up to top are in it. */
  lemma WordFull(seen: set<nat>, w: nat, top: nat)
    requires 32 * w <= top <= 32 * w + 32
    requires forall b :: b in seen && b / 32 == w ==> b < top
    ensures SeenWord(seen, w) == Numbers(32 * w, top) <==> forall b :: 32 * w <= b < top ==> b in seen
  {
    var word := SeenWord(seen, w);
    if forall b :: 32 * w <= b < top ==> b in seen {
      assert forall b :: b in Numbers(32 * w, top) ==> b in word;
      assert forall b :: b in word ==> b in Numbers(32 * w, top);
    } else {
      var b :| 32 * w <= b < top && b !in seen;
      assert b in Numbers(32 * w, top);
    }
    if word == Numbers(32 * w, top) {
      forall b | 32 * w <= b < top ensures b in seen { assert b in Numbers(32 * w, top); assert b in word; }
    }
  }

  /** The end of pb_decode_noinit: goes to the last field to count the required ones, then compares words of bits. */
  method CheckRequired(iter: FieldIter, seen: set<nat>) returns (ok: bool)
    requires iter.Valid() && forall b :: b in seen ==> b < Limited(CountRequired(iter.fields))
    modifies iter
    ensures ok <==> forall b :: 0 <= b < Limited(CountRequired(iter.fields)) ==> b in seen
  {
    ghost var total := CountRequired(iter.fields);
    var count := iter.requiredIndex;
    var last := iter.fields != [] && iter.fields[iter.pos].rule.Required?;
    var more := true;
    while more
      invariant iter.Valid()
      invariant !more ==> count == CountRequired(if iter.fields == [] then [] else iter.fields[..|iter.fields| - 1])
      invariant !more ==> last == (iter.fields != [] && iter.fields[|iter.fields| - 1].rule.Required?)
      decreases more, |iter.fields| - iter.pos
    {
      count := iter.requiredIndex;
      last := iter.fields != [] && iter.fields[iter.pos].rule.Required?;
      more := iter.Next();
    }
    if last {
      count := count + 1;
    }
    assert count == total;
    if count > MAX_REQUIRED_FIELDS {
      count := MAX_REQUIRED_FIELDS;
    }
    for i := 0 to count / 32
      invariant forall b :: 0 <= b < 32 * i ==> b in seen
    {
      WordFull(seen, i, 32 * i + 32);
      if SeenWord(seen, i) != Numbers(32 * i, 32 * i + 32) {
        return false;
      }
    }
    if count % 32 != 0 {
      WordFull(seen, count / 32, count);
      if SeenWord(seen, count / 32) != Numbers(32 * (count / 32), count) {
        return false;
      }
    }
    ok := true;
  }

  /** A tag of that field stands at p. */
  ghost predicate TagAt(data: Bytes, p: nat, tag: nat, end: nat) {
    exists q: nat, v: nat :: q <= end && v / 8 == tag && VarintIs(data, p, q, v)
  }

  /** Tags of the fields stand where at says they do. */
  ghost predicate TagsAt(data: Bytes, fs: seq<Field>, at: map<nat, nat>, from: nat, end: nat) {
    forall i :: i in at ==> i < |fs| && from <= at[i] && TagAt(data, at[i], fs[i].tag, end)
  }

  // ------------------------------------------------------------ at any depth

  /** The message was read from a stretch of the input in which a tag of every required field stood, and so were the
      messages inside it. */
  ghost predicate Sourced(fs: seq<Field>, m: seq<Slot>, data: Bytes)
    decreases fs, 1
  {
    exists at: map<nat, nat>, from: nat, end: nat ::
      TagsAt(data, fs, at, from, end) && RequiredRead(fs, at) && SlotsSourced(fs, m, data, at)
  }

  ghost predicate SlotsSourced(fs: seq<Field>, m: seq<Slot>, data: Bytes, at: map<nat, nat>)
    decreases fs, 0
  {
    |m| == |fs| && forall i :: 0 <= i < |fs| ==> SlotSourced(fs[i], m[i], data, i in at)
  }

  /** A field not read yet may hold its default. */
  ghost predicate SlotSourced(f: Field, s: Slot, data: Bytes, read: bool)
    decreases f
  {
    f.kind.Submessage? ==>
      match s
      case One(v) => (!read && v == Default(f.kind)) || ValueSourced(f.kind, v, data)
      case Opt(_, v) => (!read && v == Default(f.kind)) || ValueSourced(f.kind, v, data)
      case Many(items) => forall j :: 0 <= j < |items| ==> ValueSourced(f.kind, items[j], data)
  }

  ghost predicate ValueSourced(k: Kind, v: Value, data: Bytes)
    decreases k
  {
    k.Submessage? ==> v.Msg? && Sourced(k.fields, v.slots, data)
  }

  /** What memory may hold before a value is read into it. */
  ghost predicate DestSourced(k: Kind, v: Value, data: Bytes) {
    k.Submessage? ==> v == Default(k) || ValueSourced(k, v, data)
  }

  lemma DefaultsSourced(fs: seq<Field>, data: Bytes)
    ensures SlotsSourced(fs, Defaults(fs), data, map[])
  {
    hide Default, ValueSourced;
    forall i | 0 <= i < |fs| ensures SlotSourced(fs[i], DefaultSlot(fs[i]), data, false) { }
  }

  /** A message may be read into what a message is already in. */
  lemma SlotsOfDest(k: Kind, v: Value, data: Bytes)
    requires k.Submessage? && v.Msg? && DestSourced(k, v, data)
    ensures SlotsSourced(k.fields, v.slots, data, map[])
  {
    hide ValueSourced, SlotSourced;
    if v == Default(k) {
      DefaultsSourced(k.fields, data);
    } else {
      SlotsOfSourced(k, v, data);
    }
  }

  lemma SlotsOfSourced(k: Kind, v: Value, data: Bytes)
    requires k.Submessage? && ValueSourced(k, v, data)
    ensures v.Msg? && SlotsSourced(k.fields, v.slots, data, map[])
  {
    hide TagsAt, RequiredRead, SlotSourced;
    var fs := k.fields;
    var at: map<nat, nat>, from: nat, end: nat :| TagsAt(data, fs, at, from, end) && RequiredRead(fs, at) && SlotsSourced(fs, v.slots, data, at);
    forall i | 0 <= i < |fs| ensures SlotSourced(fs[i], v.slots[i], data, false) { UnreadSourced(fs[i], v.slots[i], data, i in at); }
  }

  lemma UnreadSourced(f: Field, s: Slot, data: Bytes, read: bool)
    requires SlotSourced(f, s, data, read)
    ensures SlotSourced(f, s, data, false)
  {
    hide ValueSourced, Default;
  }

  lemma OneMoreSourced(fs: seq<Field>, m: seq<Slot>, data: Bytes, at: map<nat, nat>, x: nat, t: Slot, p: nat)
    requires SlotsSourced(fs, m, data, at) && x < |fs| && SlotSourced(fs[x], t, data, true)
    ensures SlotsSourced(fs, m[x := t], data, at[x := p])
  {
    hide SlotSourced;
  }

  lemma SourceFound(fs: seq<Field>, m: seq<Slot>, data: Bytes, at: map<nat, nat>, from: nat, end: nat)
    requires TagsAt(data, fs, at, from, end) && RequiredRead(fs, at) && SlotsSourced(fs, m, data, at)
    ensures Sourced(fs, m, data)
  {
    hide TagsAt, RequiredRead, SlotsSourced;
  }
}
