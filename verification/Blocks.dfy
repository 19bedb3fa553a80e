/** Building a table block and iterating over it. */
module Blocks {
  import opened Keys
  import opened Coding
  import opened BlockFormat

  // ------------------------------------------------------------ the builder

  class BlockBuilder {
    const interval: nat
    var buffer: Bytes
    var restarts: seq<Word>
    var counter: nat
    var lastKey: Bytes
    /** What has been added, and at which entries compression restarted. */
    ghost var entries: seq<Pair>
    ghost var starts: seq<nat>

    ghost predicate Valid()
      reads this
    {
      interval >= 1 && counter <= interval && StartsOk(entries, starts) && AreOffsets(restarts, entries, starts) &&
      EntriesFit(entries) && buffer == Body(entries, starts) && lastKey == (if entries == [] then [] else entries[|entries| - 1].key) &&
      counter == |entries| - starts[|starts| - 1] && Spaced(starts)
    }

    /** Restarts come every interval entries. */
    ghost predicate Spaced(s: seq<nat>)
    {
      forall j :: 0 < j < |s| ==> s[j] == s[j - 1] + interval
    }

    constructor (interval: nat)
      requires interval >= 1
      ensures Valid() && entries == [] && this.interval == interval && buffer == [] && |restarts| == 1
    {
      this.interval := interval;
      buffer, restarts, counter, lastKey := [], [0], 0, [];
      entries, starts := [], [0];
      OneOffset([0]);
    }

    /** How much of the key the previous key already has. */
    method SharedPrefix(key: Bytes) returns (shared: nat)
      ensures shared == Common(lastKey, key, 0)
    {
      var minLength := if |lastKey| < |key| then |lastKey| else |key|;
      shared := 0;
      while shared < minLength && lastKey[shared] == key[shared]
        invariant shared <= minLength && Common(lastKey, key, shared) == Common(lastKey, key, 0)
      {
        shared := shared + 1;
      }
    }

    /** The three lengths, the rest of the key, the value. */
    method AddEntry(shared: nat, key: Bytes, value: Bytes)
      requires shared <= |key| < MAX_SIZE && |value| < MAX_SIZE
      modifies this`buffer
      ensures buffer == old(buffer) + EntryBytes(shared, Pair(key, value)) && |buffer| <= old(|buffer|) + |key| + |value| + 15
    {
      hide Varint;
      var a := EncodeVarint32(shared);
      var b := EncodeVarint32(|key| - shared);
      var c := EncodeVarint32(|value|);
      buffer := buffer + (a + b + c);
      buffer := buffer + key[shared..];
      buffer := buffer + value;
      assert buffer == old(buffer) + EntryBytes(shared, Pair(key, value));
    }

    /** How much of the key to leave out; after enough entries nothing, and compression starts again. */
    method Compress(key: Bytes, ghost p: Pair) returns (shared: nat)
      requires Valid() && |buffer| < MAX_SIZE && p.key == key
      modifies this`restarts, this`starts, this`counter
      ensures shared <= |lastKey| && shared <= |key| && lastKey[..shared] == key[..shared]
      ensures StartsOk(entries + [p], starts) && AreOffsets(restarts, entries + [p], starts) && Spaced(starts)
      ensures Body(entries + [p], starts) == buffer + EntryBytes(shared, p)
      ensures counter < interval && counter == |entries| - starts[|starts| - 1] && |restarts| <= old(|restarts|) + 1
    {
      hide Body, EntryBytes, Common, Off, StartsOk, AreOffsets, Spaced, EntriesFit;
      LastStart(entries, starts, counter);
      shared := 0;
      if counter < interval {
        shared := SharedPrefix(key);
        SharedAdded(entries, starts, restarts, p, lastKey);
      } else {
        RestartAdded(entries, starts, restarts, p, |buffer|);
        SpacedMore(starts, |entries|);
        restarts := restarts + [|buffer|];
        starts := starts + [|entries|];
        counter := 0;
      }
      KeyFromLast(lastKey, key, shared);
    }

    method Add(key: Bytes, value: Bytes)
      requires Valid() && |buffer| < MAX_SIZE && |key| < MAX_SIZE && |value| < MAX_SIZE
      modifies this
      ensures Valid() && entries == old(entries) + [Pair(key, value)]
      ensures |buffer| <= old(|buffer|) + |key| + |value| + 15 && |restarts| <= old(|restarts|) + 1
    {
      hide Body, EntryBytes, Common, Off, StartsOk, AreOffsets, Spaced;
      var shared := Compress(key, Pair(key, value));
      AddEntry(shared, key, value);
      lastKey := lastKey[..shared] + key[shared..];
      assert lastKey == key;
      entries := entries + [Pair(key, value)];
      counter := counter + 1;
    }

    function CurrentSizeEstimate(): nat
      reads this
    {
      |buffer| + 4 * |restarts| + 4
    }

    /** The finished block: entries, restart offsets, and how many those are. */
    method Finish() returns (r: Bytes)
      requires Valid() && |restarts| < MAX_SIZE
      ensures IsBlock(r, entries, starts)
    {
      hide Fixed32s, EncodeFixed32, Body, StartsOk, AreOffsets, Spaced;
      r := buffer;
      NoFixed32s();
      for i := 0 to |restarts|
        invariant r == buffer + Fixed32s(restarts[..i])
      {
        OneMoreFixed32(restarts, i);
        r := r + EncodeFixed32(restarts[i]);
      }
      assert restarts[..|restarts|] == restarts;
      r := r + EncodeFixed32(|restarts|);
      assert Finished(r, entries, starts, restarts);
    }

    lemma SpacedMore(s: seq<nat>, x: nat)
      requires Spaced(s) && s != [] && x == s[|s| - 1] + interval
      ensures Spaced(s + [x])
    {
    }
  }

  lemma KeyFromLast(lastKey: Bytes, key: Bytes, shared: nat)
    requires shared == 0 || shared == Common(lastKey, key, 0)
    ensures shared <= |lastKey| && shared <= |key| && lastKey[..shared] == key[..shared]
  {
    CommonIsPrefix(lastKey, key, 0);
  }

  lemma LastStart(es: seq<Pair>, starts: seq<nat>, counter: int)
    requires StartsOk(es, starts) && counter == |es| - starts[|starts| - 1]
    ensures |starts| > 0 && (counter > 0 ==> es != [])
  {
  }

  lemma NoFixed32s()
    ensures Fixed32s([]) == []
  {
  }

  lemma OneMoreFixed32(ws: seq<Word>, i: nat)
    requires i < |ws|
    ensures Fixed32s(ws[..i + 1]) == Fixed32s(ws[..i]) + EncodeFixed32(ws[i])
  {
    assert ws[..i + 1][..i] == ws[..i];
  }

  /** b is a block of these entries with these restart points. */
  ghost predicate IsBlock(b: Bytes, es: seq<Pair>, starts: seq<nat>) {
    StartsOk(es, starts) && EntriesFit(es) && exists rs :: Finished(b, es, starts, rs)
  }

  ghost predicate EntriesFit(es: seq<Pair>) {
    forall p :: p in es ==> |p.key| < MAX_SIZE && |p.value| < MAX_SIZE
  }

  ghost predicate Finished(b: Bytes, es: seq<Pair>, starts: seq<nat>, rs: seq<Word>) {
    |rs| < MAX_SIZE && AreOffsets(rs, es, starts) && b == Body(es, starts) + Fixed32s(rs) + EncodeFixed32(|rs|)
  }

  lemma SameOffsets(es: seq<Pair>, starts: seq<nat>, p: Pair, i: nat)
    requires i <= |es|
    ensures Off(es + [p], starts, i) == Off(es, starts, i)
  {
    assert (es + [p])[..i] == es[..i];
  }

  /** An entry added without a restart shares what it can with the key before it. */
  lemma SharedAdded(es: seq<Pair>, starts: seq<nat>, rs: seq<Word>, p: Pair, lastKey: Bytes)
    requires StartsOk(es, starts) && AreOffsets(rs, es, starts)
    requires lastKey == if es == [] then [] else es[|es| - 1].key
    ensures StartsOk(es + [p], starts) && AreOffsets(rs, es + [p], starts)
    ensures Body(es + [p], starts) == Body(es, starts) + EntryBytes(Common(lastKey, p.key, 0), p)
  {
    hide Off, Body, EntryBytes, Common;
    var r := es + [p];
    BodyStep(r, starts, |es|);
    assert r[..|es| + 1] == r && r[..|es|] == es;
    forall j | 0 <= j < |starts| ensures Off(r, starts, starts[j]) == Off(es, starts, starts[j]) { SameOffsets(es, starts, p, starts[j]); }
    if es == [] {
      NothingCommon(p.key);
    } else {
      assert |es| !in starts && r[|es| - 1] == es[|es| - 1];
    }
  }

  lemma NothingCommon(key: Bytes)
    ensures Common([], key, 0) == 0
  {
  }

  /** An entry added at a restart point shares nothing, and its offset joins the restart array. */
  lemma RestartAdded(es: seq<Pair>, starts: seq<nat>, rs: seq<Word>, p: Pair, o: Word)
    requires StartsOk(es, starts) && AreOffsets(rs, es, starts) && es != [] && o == |Body(es, starts)|
    ensures var s := starts + [|es|];
      StartsOk(es + [p], s) && AreOffsets(rs + [o], es + [p], s) && Body(es + [p], s) == Body(es, starts) + EntryBytes(0, p)
  {
    hide Body, EntryBytes, Common, AreOffsets;
    var r, s := es + [p], starts + [|es|];
    BodyStep(r, s, |es|);
    assert r[..|es| + 1] == r && r[..|es|] == es && s[|starts|] == |es|;
    LaterStartsDoNotMatter(es, starts, |es|);
    RestartOffsets(es, starts, rs, p, o);
  }

  lemma RestartOffsets(es: seq<Pair>, starts: seq<nat>, rs: seq<Word>, p: Pair, o: Word)
    requires AreOffsets(rs, es, starts) && o == |Body(es, starts)|
    ensures AreOffsets(rs + [o], es + [p], starts + [|es|])
  {
    hide Body;
    var s := starts + [|es|];
    forall j | 0 <= j < |s| ensures s[j] <= |es| && Off(es + [p], s, s[j]) == (rs + [o])[j] {
      SameOffsets(es, s, p, s[j]);
      LaterStartsDoNotMatter(es[..s[j]], starts, |es|);
      assert es[..|es|] == es;
    }
  }

  lemma OneOffset(starts: seq<nat>)
    requires starts == [0]
    ensures StartsOk([], starts) && AreOffsets([0], [], starts) && Body([], starts) == []
  {
  }

  // ------------------------------------------------------------ reading a block

  /** The number of restart points, as the last four bytes tell. */
  function NumRestarts(b: Bytes): Word
    requires |b| >= 4
  {
    DecodeFixed32(b[|b| - 4..])
  }

  /** What Block checks before it hands out an iterator. */
  predicate Readable(b: Bytes) {
    |b| >= 4 && NumRestarts(b) > 0 && 4 * (1 + NumRestarts(b)) <= |b|
  }

  /** The tail of a finished block tells where its restart array starts. */
  lemma BlockTail(b: Bytes, es: seq<Pair>, starts: seq<nat>, rs: seq<Word>)
    requires Finished(b, es, starts, rs) && |starts| > 0
    ensures Readable(b) && NumRestarts(b) == |starts| && |b| == |Body(es, starts)| + 4 * (1 + |starts|)
    ensures b[..|Body(es, starts)|] == Body(es, starts)
  {
    hide Body, Fixed32s, AreOffsets, DecodeFixed32;
    Fixed32sLength(rs);
    SameLength(rs, es, starts);
    Fixed32RoundTrip(|rs|);
    assert b[|b| - 4..] == EncodeFixed32(|rs|);
  }

  lemma SameLength(rs: seq<Word>, es: seq<Pair>, starts: seq<nat>)
    requires AreOffsets(rs, es, starts)
    ensures |rs| == |starts|
  {
  }

  /** The j-th number of the restart array is the offset of the j-th restart point. */
  lemma RestartPointIs(b: Bytes, es: seq<Pair>, starts: seq<nat>, rs: seq<Word>, j: nat)
    requires Finished(b, es, starts, rs) && j < |starts|
    ensures var o := |Body(es, starts)| + 4 * j;
      o + 4 <= |b| && starts[j] <= |es| && DecodeFixed32(b[o..o + 4]) == Off(es, starts, starts[j])
  {
    hide Body, Fixed32s, DecodeFixed32, Off;
    Fixed32sLength(rs);
    Fixed32At(rs, j);
    Fixed32RoundTrip(rs[j]);
    var body, tail := Body(es, starts), Fixed32s(rs);
    InsideOf(body, tail, EncodeFixed32(|rs|), 4 * j, 4 * j + 4);
  }

  lemma InsideOf(x: Bytes, y: Bytes, z: Bytes, a: nat, b: nat)
    requires a <= b <= |y|
    ensures (x + y + z)[|x| + a..|x| + b] == y[a..b]
  {
  }

  // ------------------------------------------------------------ decoding an entry

  /** The three lengths of entry i stand at p. */
  lemma HeaderVarints(b: Bytes, p: nat, limit: nat, shared: nat, e: Pair)
    requires shared <= |e.key| && p + |EntryBytes(shared, e)| <= limit <= |b|
    requires b[p..p + |EntryBytes(shared, e)|] == EntryBytes(shared, e)
    ensures var x, y, z := |Varint(shared)|, |Varint(|e.key| - shared)|, |Varint(|e.value|)|;
      VarintAt(b, p, limit, shared) && VarintAt(b, p + x, limit, |e.key| - shared) &&
      VarintAt(b, p + x + y, limit, |e.value|) && |EntryBytes(shared, e)| == x + y + z + |e.key| - shared + |e.value|
    ensures var q := p + |Header(shared, |e.key| - shared, |e.value|)|;
      b[q..q + |e.key| - shared] == e.key[shared..] && b[q + |e.key| - shared..q + |e.key| - shared + |e.value|] == e.value
  {
    hide Varint, EntryBytes, Header;
    var u, v, w := Varint(shared), Varint(|e.key| - shared), Varint(|e.value|);
    EntryParts(shared, e);
    FiveParts(b, p, u, v, w, e.key[shared..], e.value);
  }

  lemma EntryParts(shared: nat, e: Pair)
    requires shared <= |e.key|
    ensures var u, v, w := Varint(shared), Varint(|e.key| - shared), Varint(|e.value|);
      EntryBytes(shared, e) == u + v + w + e.key[shared..] + e.value && |Header(shared, |e.key| - shared, |e.value|)| == |u| + |v| + |w|
  {
    hide Varint;
  }

  lemma FiveParts(b: Bytes, p: nat, u: Bytes, v: Bytes, w: Bytes, k: Bytes, z: Bytes)
    requires var n := |u| + |v| + |w| + |k| + |z|; p + n <= |b| && b[p..p + n] == u + v + w + k + z
    ensures var x, y := p + |u|, p + |u| + |v|;
      b[p..x] == u && b[x..y] == v && b[y..y + |w|] == w && b[y + |w|..y + |w| + |k|] == k &&
      b[y + |w| + |k|..y + |w| + |k| + |z|] == z
  {
    var n := |u| + |v| + |w| + |k| + |z|;
    assert b[p..p + n] == u + (v + (w + (k + z)));
    TwoParts(b, p, u, v + (w + (k + z)));
    TwoParts(b, p + |u|, v, w + (k + z));
    TwoParts(b, p + |u| + |v|, w, k + z);
    TwoParts(b, p + |u| + |v| + |w|, k, z);
  }

  lemma TwoParts(b: Bytes, p: nat, x: Bytes, y: Bytes)
    requires p + |x + y| <= |b| && b[p..p + |x + y|] == x + y
    ensures b[p..p + |x|] == x && b[p + |x|..p + |x| + |y|] == y
  {
    var r := b[p..p + |x + y|];
    assert r[..|x|] == x && r[|x|..] == y;
    assert b[p..p + |x|] == r[..|x|];
    assert b[p + |x|..p + |x| + |y|] == r[|x|..];
  }

  datatype Decoded = Decoded(shared: nat, nonShared: nat, valueLength: nat, delta: nat)

  /** DecodeEntry: one byte each when all three lengths are small, varints otherwise; nothing when the
      bytes do not hold an entry. If entry e stands at p, its lengths and where its key begins. */
  method DecodeEntry(b: Bytes, p: nat, limit: nat, ghost shared: nat, ghost e: Pair) returns (r: Option<Decoded>)
    requires p <= limit <= |b| && shared <= |e.key| < MAX_SIZE && |e.value| < MAX_SIZE
    ensures r.Some? ==> p + 3 <= r.value.delta && r.value.delta + r.value.nonShared + r.value.valueLength <= limit
    ensures p + |EntryBytes(shared, e)| <= limit && b[p..p + |EntryBytes(shared, e)|] == EntryBytes(shared, e) ==>
      r == Some(Decoded(shared, |e.key| - shared, |e.value|, p + |Header(shared, |e.key| - shared, |e.value|)|))
  {
    hide Varint, VarintAt;
    ghost var near := p + |EntryBytes(shared, e)| <= limit && b[p..p + |EntryBytes(shared, e)|] == EntryBytes(shared, e);
    if near { HeaderVarints(b, p, limit, shared, e); }
    if limit - p < 3 {
      return None;
    }
    var x, y, z := b[p] as nat, b[p + 1] as nat, b[p + 2] as nat;
    var q := p;
    if x < 128 && y < 128 && z < 128 {
      if near { FastPath(b, p, limit, shared, |e.key| - shared, |e.value|); }
      q := p + 3;
    } else {
      var v, q1 := GetVarint32(b, p, limit, shared);
      if v.None? { return None; }
      x := v.value;
      var w, q2 := GetVarint32(b, q1, limit, |e.key| - shared);
      if w.None? { return None; }
      y := w.value;
      var u, q3 := GetVarint32(b, q2, limit, |e.value|);
      if u.None? { return None; }
      z := u.value;
      q := q3;
    }
    if limit - q < y + z {
      return None;
    }
    r := Some(Decoded(x, y, z, q));
  }

  /** Three bytes below 128 are three one-byte varints. */
  lemma FastPath(b: Bytes, p: nat, limit: nat, x: nat, y: nat, z: nat)
    requires p + 3 <= limit <= |b| && b[p] < 128 && b[p + 1] < 128 && b[p + 2] < 128
    requires VarintAt(b, p, limit, x) && VarintAt(b, p + |Varint(x)|, limit, y)
    requires VarintAt(b, p + |Varint(x)| + |Varint(y)|, limit, z)
    ensures b[p] == x && b[p + 1] == y && b[p + 2] == z && |Varint(x)| == |Varint(y)| == |Varint(z)| == 1
  {
    hide Varint, VarintAt;
    VarintStep(b, p, limit, x);
    VarintTail(x);
    VarintStep(b, p + 1, limit, y);
    VarintTail(y);
    VarintStep(b, p + 2, limit, z);
    VarintTail(z);
  }
}
