/** The format of a table: data blocks one after another, and an index with a key and a handle for each. */
module TableFormat {
  import opened Keys
  import opened Coding
  import opened BlockFormat
  import opened Blocks
  import opened BlockIters
  import opened Separators
  import FilterBlocks

  datatype Handle = Handle(offset: nat, size: nat)

  const BLOCK_TRAILER_SIZE: nat := 5

  function HandleBytes(h: Handle): Bytes {
    Varint(h.offset) + Varint(h.size)
  }

  predicate HandleOk(h: Handle) {
    h.offset < TWO_64 && h.size < TWO_64
  }

  lemma {:induction false} ShortNumber(v: nat, n: nat)
    requires v < Scale(n) && n > 0
    ensures |Varint(v)| <= n
    decreases n
  {
    Unfolded(v);
    if v >= 128 {
      assert n > 1 by { assert Scale(1) == 128; }
      ShortNumber(v / 128, n - 1);
    }
  }

  lemma ShortHandle(h: Handle)
    requires h.offset < TWO_64 && h.size < TWO_64
    ensures |HandleBytes(h)| <= 20
  {
    FiveBytes();
    assert Scale(6) == 128 * Scale(5) && Scale(7) == 128 * Scale(6) && Scale(8) == 128 * Scale(7);
    assert Scale(9) == 128 * Scale(8) && Scale(10) == 128 * Scale(9);
    ShortNumber(h.offset, 10);
    ShortNumber(h.size, 10);
  }

  method EncodeHandle(h: Handle) returns (r: Bytes)
    ensures r == HandleBytes(h)
  {
    hide Varint;
    var a := EncodeVarint64(h.offset);
    var b := EncodeVarint64(h.size);
    r := a + b;
  }

  /** BlockHandle::DecodeFrom; anything after the handle is allowed, and left to be read from q on. */
  method DecodeHandleAt(b: Bytes, p: nat, ghost h: Handle) returns (r: Option<Handle>, q: nat)
    requires p <= |b|
    ensures p <= q <= |b|
    ensures HandleOk(h) && StandsAt(b, p, |b|, HandleBytes(h)) ==> r == Some(h) && q == p + |HandleBytes(h)|
  {
    hide Varint;
    StandsInTurn(b, p, |b|, Varint(h.offset), Varint(h.size));
    r := None;
    var offset, size;
    offset, q := GetVarint64(b, p, |b|, h.offset);
    if offset.None? { return; }
    size, q := GetVarint64(b, q, |b|, h.size);
    if size.None? { return; }
    r := Some(Handle(offset.value, size.value));
  }

  method DecodeHandle(b: Bytes, ghost h: Handle) returns (r: Option<Handle>)
    ensures HandleOk(h) && StandsAt(b, 0, |b|, HandleBytes(h)) ==> r == Some(h)
  {
    var q;
    r, q := DecodeHandleAt(b, 0, h);
  }

  // ------------------------------------------------------------ the footer

  const MAGIC: nat := 0xdb47_7524_8b80_fb57
  const FOOTER_SIZE: nat := 48

  /** Both handles, padding up to 40 bytes, and the magic number. */
  function FooterBytes(meta: Handle, index: Handle): (r: Bytes)
    ensures |r| == FOOTER_SIZE
  {
    var handles := HandleBytes(meta) + HandleBytes(index);
    (if |handles| < 40 then handles + seq(40 - |handles|, _ => 0) else handles[..40]) + Fixed64Bytes(MAGIC)
  }

  /** The file ends with the footer of these handles. */
  ghost predicate FooterStands(file: Bytes, meta: Handle, index: Handle) {
    HandleOk(meta) && HandleOk(index) && |file| >= FOOTER_SIZE && file[|file| - FOOTER_SIZE..] == FooterBytes(meta, index)
  }

  lemma FooterParts(meta: Handle, index: Handle)
    requires HandleOk(meta) && HandleOk(index)
    ensures var b := FooterBytes(meta, index);
      StandsAt(b, 0, |b|, HandleBytes(meta)) && StandsAt(b, |HandleBytes(meta)|, |b|, HandleBytes(index)) && DecodeFixed64(b[40..]) == MAGIC
  {
    hide HandleBytes, Fixed64Bytes, DecodeFixed64;
    ShortHandle(meta);
    ShortHandle(index);
    Fixed64RoundTrip(MAGIC);
    var b, x, y := FooterBytes(meta, index), HandleBytes(meta), HandleBytes(index);
    assert b[..40][..|x + y|] == x + y;
    assert b[0..|x|] == (x + y)[..|x|] == x;
    assert b[|x|..|x| + |y|] == (x + y)[|x|..] == y;
    assert b[40..] == Fixed64Bytes(MAGIC);
  }

  /** Footer::DecodeFrom, from the end of the file. */
  method ReadFooter(file: Bytes, ghost meta: Handle, ghost index: Handle) returns (r: Option<(Handle, Handle)>)
    ensures FooterStands(file, meta, index) ==> r == Some((meta, index))
  {
    hide HandleBytes, FooterBytes, DecodeFixed64, StandsAt;
    r := None;
    if |file| < FOOTER_SIZE {
      return;
    }
    var input := file[|file| - FOOTER_SIZE..];
    if FooterStands(file, meta, index) { FooterParts(meta, index); }
    if DecodeFixed64(input[40..]) != MAGIC {
      return;
    }
    var m, i, q;
    m, q := DecodeHandleAt(input, 0, meta);
    if m.None? { return; }
    i, q := DecodeHandleAt(input, q, index);
    if i.None? { return; }
    r := Some((m.value, i.value));
  }

  // ------------------------------------------------------------ the metaindex block

  /** Where the filter block is, under the name of the filter policy; nothing without a filter. */
  function MetaEntries(filterKey: Bytes, filter: Option<Handle>): seq<Pair> {
    if filter.Some? then [Pair(filterKey, HandleBytes(filter.value))] else []
  }

  // ------------------------------------------------------------ entries in blocks

  /** The entries of all blocks, in turn. */
  function Flat(lists: seq<seq<Pair>>): seq<Pair> {
    if lists == [] then [] else Flat(lists[..|lists| - 1]) + lists[|lists| - 1]
  }

  function StartOf(lists: seq<seq<Pair>>, b: nat): nat
    requires b <= |lists|
  {
    |Flat(lists[..b])|
  }

  lemma FlatStep(lists: seq<seq<Pair>>, b: nat)
    requires b < |lists|
    ensures Flat(lists[..b + 1]) == Flat(lists[..b]) + lists[b] && StartOf(lists, b + 1) == StartOf(lists, b) + |lists[b]|
  {
    assert lists[..b + 1][..b] == lists[..b];
  }

  lemma {:induction false} FlatGrows(lists: seq<seq<Pair>>, b: nat, c: nat)
    requires b <= c <= |lists|
    ensures Flat(lists[..b]) <= Flat(lists[..c])
  {
    if b < c {
      FlatGrows(lists, b, c - 1);
      FlatStep(lists, c - 1);
    }
  }

  /** Where entry j of block b is among all. */
  lemma FlatAt(lists: seq<seq<Pair>>, b: nat, j: nat)
    requires b < |lists| && j < |lists[b]|
    ensures StartOf(lists, b) + j < |Flat(lists)| && Flat(lists)[StartOf(lists, b) + j] == lists[b][j]
    ensures StartOf(lists, b + 1) <= |Flat(lists)|
  {
    hide Flat;
    FlatStep(lists, b);
    FlatGrows(lists, b + 1, |lists|);
    assert lists[..|lists|] == lists;
  }

  /** Which block entry p of all is in. */
  lemma {:induction false} BlockOf(lists: seq<seq<Pair>>, p: nat) returns (b: nat, j: nat)
    requires p < |Flat(lists)|
    ensures b < |lists| && j < |lists[b]| && p == StartOf(lists, b) + j
    decreases |lists|
  {
    var n := |lists| - 1;
    if p < |Flat(lists[..n])| {
      b, j := BlockOf(lists[..n], p);
      assert lists[..n][..b] == lists[..b];
    } else {
      b, j := n, p - |Flat(lists[..n])|;
    }
  }

  /** Blocks are not empty, and all keys are internal keys that ascend. */
  ghost predicate ListsOk(lists: seq<seq<Pair>>) {
    (forall b :: 0 <= b < |lists| ==> lists[b] != []) && (forall p :: p in Flat(lists) ==> LongEnough(p.key)) &&
    Ascending(Flat(lists), InternalLess)
  }

  function First(es: seq<Pair>): Bytes {
    if es == [] then [] else es[0].key
  }

  function Last(es: seq<Pair>): Bytes {
    if es == [] then [] else es[|es| - 1].key
  }

  lemma InOrder(lists: seq<seq<Pair>>, b: nat, i: nat, c: nat, j: nat)
    requires ListsOk(lists) && b < |lists| && i < |lists[b]| && c < |lists| && j < |lists[c]|
    ensures b < c || (b == c && i < j) ==> InternalLess(lists[b][i].key, lists[c][j].key)
    ensures LongEnough(lists[b][i].key)
  {
    hide Flat, InternalLess, LongEnough;
    FlatAt(lists, b, i);
    FlatAt(lists, c, j);
    assert Flat(lists)[StartOf(lists, b) + i] in Flat(lists);
    if b < c {
      FlatStep(lists, b);
      FlatGrows(lists, b + 1, c);
    }
  }

  lemma OneBlockAscends(lists: seq<seq<Pair>>, b: nat)
    requires ListsOk(lists) && b < |lists|
    ensures Ascending(lists[b], InternalLess)
  {
    hide Flat, InternalLess;
    forall i, j | 0 <= i < j < |lists[b]| ensures InternalLess(lists[b][i].key, lists[b][j].key) { InOrder(lists, b, i, b, j); }
  }

  lemma LessIsTransitive()
    ensures Transitive(InternalLess)
  {
    hide InternalLess;
    forall a, b, c | InternalLess(a, b) && InternalLess(b, c) ensures InternalLess(a, c) { InternalTransitive(a, b, c); }
  }

  // ------------------------------------------------------------ the index

  /** Index key r is fit for block es, whose last key it follows and which the block next follows. */
  ghost predicate FitsBetween(r: Bytes, es: seq<Pair>, next: seq<Pair>) {
    Separates(r, Last(es), First(next))
  }

  /** Index key r is fit for the last block. */
  ghost predicate FitsLast(r: Bytes, es: seq<Pair>) {
    r == Last(es) || (LongEnough(r) && BytesLess(UserOf(Last(es)), UserOf(r)))
  }

  /** The index has the right keys for the first n blocks. */
  ghost predicate Indexed(index: seq<Pair>, lists: seq<seq<Pair>>, handles: seq<Handle>, n: nat) {
    n <= |index| && n <= |handles| && n <= |lists| && (forall b :: 0 <= b < n ==> index[b].value == HandleBytes(handles[b])) &&
    forall b :: 0 <= b < n ==> KeyFits(index[b].key, lists, b)
  }

  ghost predicate KeyFits(r: Bytes, lists: seq<seq<Pair>>, b: nat)
    requires b < |lists|
  {
    if b + 1 < |lists| then FitsBetween(r, lists[b], lists[b + 1]) else FitsLast(r, lists[b])
  }

  /** Bytes of the file that are a block of the given entries, with the trailer for an uncompressed block. */
  ghost predicate BlockStands(file: Bytes, h: Handle, es: seq<Pair>) {
    h.offset + h.size + BLOCK_TRAILER_SIZE <= |file| && file[h.offset + h.size] == 0 &&
    HasEntries(file[h.offset..h.offset + h.size], es)
  }

  ghost predicate HasEntries(b: Bytes, es: seq<Pair>) {
    exists starts :: IsBlock(b, es, starts)
  }

  /** A finished table: its data blocks, and the entries of its index block. */
  ghost predicate TableOk(file: Bytes, indexHandle: Handle, index: seq<Pair>, lists: seq<seq<Pair>>, handles: seq<Handle>) {
    |file| < TWO_64 && ListsOk(lists) && |handles| == |lists| == |index| && Indexed(index, lists, handles, |lists|) &&
    BlockStands(file, indexHandle, index) && AllStand(file, lists, handles)
  }

  /** All data blocks stand in the file, one after another. */
  ghost predicate AllStand(file: Bytes, lists: seq<seq<Pair>>, handles: seq<Handle>) {
    |handles| == |lists| && (forall b :: 0 <= b < |lists| ==> BlockStands(file, handles[b], lists[b])) &&
    forall b, c :: 0 <= b < c < |lists| ==> handles[b].offset < handles[c].offset
  }

  /** An index key is at or after every key of its block. */
  lemma IndexAfter(index: seq<Pair>, lists: seq<seq<Pair>>, handles: seq<Handle>, n: nat, b: nat, j: nat)
    requires ListsOk(lists) && Indexed(index, lists, handles, n) && b < n && j < |lists[b]|
    ensures index[b].key == lists[b][j].key || InternalLess(lists[b][j].key, index[b].key)
    ensures j < |lists[b]| - 1 ==> InternalLess(lists[b][j].key, index[b].key)
  {
    hide Flat, UserOf, NumberOf, BytesLess, Ascending;
    var m := |lists[b]| - 1;
    InOrder(lists, b, j, b, m);
    assert KeyFits(index[b].key, lists, b);
    if index[b].key != lists[b][m].key && j < m { InternalTransitive(lists[b][j].key, lists[b][m].key, index[b].key); }
  }

  /** An index key is before every key of later blocks. */
  lemma IndexBefore(index: seq<Pair>, lists: seq<seq<Pair>>, handles: seq<Handle>, n: nat, b: nat, c: nat, j: nat)
    requires ListsOk(lists) && Indexed(index, lists, handles, n) && b < n && b < c < |lists| && j < |lists[c]|
    ensures InternalLess(index[b].key, lists[c][j].key)
    ensures index[b].key == Last(lists[b]) || BytesLess(UserOf(index[b].key), UserOf(lists[c][j].key))
  {
    hide Flat, UserOf, NumberOf, BytesLess, Ascending;
    var m := |lists[b]| - 1;
    InOrder(lists, b, m, c, j);
    InOrder(lists, b + 1, 0, c, j);
    assert KeyFits(index[b].key, lists, b);
    if index[b].key != lists[b][m].key {
      var f := lists[b + 1][0].key;
      assert BytesLess(UserOf(index[b].key), UserOf(f));
      if b + 1 < c || 0 < j {
        if BytesLess(UserOf(f), UserOf(lists[c][j].key)) { BytesTransitive(UserOf(index[b].key), UserOf(f), UserOf(lists[c][j].key)); }
      }
    }
  }

  /** Index keys ascend. */
  lemma IndexAscends(index: seq<Pair>, lists: seq<seq<Pair>>, handles: seq<Handle>, n: nat)
    requires ListsOk(lists) && Indexed(index, lists, handles, n) && |index| == n
    ensures Ascending(index, InternalLess)
  {
    hide Flat, InternalLess;
    forall b, c | 0 <= b < c < n ensures InternalLess(index[b].key, index[c].key) {
      IndexBefore(index, lists, handles, n, b, c, 0);
      IndexAfter(index, lists, handles, n, c, 0);
      if index[c].key != lists[c][0].key { InternalTransitive(index[b].key, lists[c][0].key, index[c].key); }
    }
  }

  /** Every entry's key was added to the filter for the block it is in. */
  ghost predicate FilterCovers(lists: seq<seq<Pair>>, handles: seq<Handle>, made: seq<seq<Bytes>>) {
    |handles| == |lists| && forall b, x :: 0 <= b < |lists| && x in lists[b] ==> KeyCovered(handles[b].offset, x.key, made)
  }

  ghost predicate KeyCovered(block: nat, key: Bytes, made: seq<seq<Bytes>>) {
    block / FilterBlocks.FILTER_BASE < |made| && key in made[block / FilterBlocks.FILTER_BASE]
  }

  lemma HandlesDiffer(g: Handle, h: Handle)
    requires HandleBytes(g) == HandleBytes(h)
    ensures g == h
  {
    hide Varint;
    VarintFirst(g.offset, h.offset, Varint(g.size), Varint(h.size));
    VarintFirst(g.size, h.size, [], []);
  }
}
