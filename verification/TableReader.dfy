/** Looking a key up in a table: the index leads to the one block that can hold it. */
module TableReader {
  import opened Keys
  import opened Coding
  import opened BlockFormat
  import opened Blocks
  import opened BlockIters
  import opened Separators
  import opened TableFormat
  import opened FilterBlocks

  /** p is the first entry that is not before k. */
  ghost predicate FirstNotBefore(es: seq<Pair>, k: Bytes, p: Pair) {
    p in es && !InternalLess(p.key, k) && forall x :: x in es && !InternalLess(x.key, k) ==> !InternalLess(x.key, p.key)
  }

  /** Some entry is of k's user key, and no newer than k. */
  ghost predicate Visible(es: seq<Pair>, k: Bytes) {
    exists x :: x in es && SeenBy(x, k)
  }

  predicate SeenBy(x: Pair, k: Bytes) {
    UserOf(x.key) == UserOf(k) && NumberOf(x.key) <= NumberOf(k)
  }

  /** If any entry of the user key is visible, then the first not before k is the newest visible one. */
  lemma FirstIsNewest(es: seq<Pair>, k: Bytes, p: Pair)
    requires FirstNotBefore(es, k, p)
    ensures Visible(es, k) <==> SeenBy(p, k)
    ensures forall x :: x in es && SeenBy(x, k) ==> NumberOf(x.key) <= NumberOf(p.key)
  {
    hide BytesLess, UserOf, NumberOf;
    forall x | x in es && SeenBy(x, k) ensures SeenBy(p, k) && NumberOf(x.key) <= NumberOf(p.key) {
      BytesOrder(UserOf(k), UserOf(k));
      assert !InternalLess(x.key, k) && !InternalLess(x.key, p.key) && !InternalLess(p.key, k);
      BytesOrder(UserOf(p.key), UserOf(k));
    }
  }

  // ------------------------------------------------------------ which block

  /** Every entry before block b is before k. */
  lemma EarlierAreBefore(index: seq<Pair>, lists: seq<seq<Pair>>, handles: seq<Handle>, k: Bytes, b: nat, x: Pair)
    requires ListsOk(lists) && Indexed(index, lists, handles, |lists|) && |index| == |lists|
    requires AllLess(index, InternalLess, k, b)
    ensures x in Flat(lists[..b]) ==> InternalLess(x.key, k)
  {
    hide Flat, InternalLess;
    if x in Flat(lists[..b]) {
      var p :| 0 <= p < |Flat(lists[..b])| && Flat(lists[..b])[p] == x;
      var c, j := BlockOf(lists[..b], p);
      FlatAt(lists[..b], c, j);
      assert lists[..b][c] == lists[c] && InternalLess(index[c].key, k);
      IndexAfter(index, lists, handles, |lists|, c, j);
      if index[c].key != x.key { InternalTransitive(x.key, index[c].key, k); }
    }
  }

  /** Where entry x of all is, seen from block b. */
  lemma BeforeInOrAfter(lists: seq<seq<Pair>>, b: nat, x: Pair)
    requires b < |lists| && x in Flat(lists)
    ensures x in Flat(lists[..b]) || x in lists[b] || exists c, j :: b < c < |lists| && 0 <= j < |lists[c]| && lists[c][j] == x
  {
    hide Flat;
    var p :| 0 <= p < |Flat(lists)| && Flat(lists)[p] == x;
    var c, j := BlockOf(lists, p);
    FlatAt(lists, c, j);
    if c < b {
      FlatAt(lists[..b], c, j);
      assert lists[..b][c] == lists[c] && lists[..b][..c] == lists[..c];
    }
  }

  /** The first entry of block b not before k is the first of all. */
  lemma FoundInBlock(index: seq<Pair>, lists: seq<seq<Pair>>, handles: seq<Handle>, k: Bytes, b: nat, j: nat)
    requires ListsOk(lists) && Indexed(index, lists, handles, |lists|) && |index| == |lists|
    requires AllLess(index, InternalLess, k, b) && b < |lists| && j < |lists[b]|
    requires FirstReaching(lists[b], InternalLess, k, j)
    ensures FirstNotBefore(Flat(lists), k, lists[b][j])
  {
    hide Flat, InternalLess, Indexed, ListsOk;
    var p := lists[b][j];
    FlatAt(lists, b, j);
    forall x | x in Flat(lists) && !InternalLess(x.key, k) ensures !InternalLess(x.key, p.key) {
      EarlierAreBefore(index, lists, handles, k, b, x);
      BeforeInOrAfter(lists, b, x);
      InternalOrder(x.key, p.key);
      if x in lists[b] {
        var i :| 0 <= i < |lists[b]| && lists[b][i] == x;
        InOrder(lists, b, j, b, i);
      } else {
        var c, i :| b < c < |lists| && 0 <= i < |lists[c]| && lists[c][i] == x;
        InOrder(lists, b, j, c, i);
      }
    }
  }

  /** When block b, to which the index leads, has nothing that is not before k, then no entry is visible. */
  lemma NotFoundInBlock(index: seq<Pair>, lists: seq<seq<Pair>>, handles: seq<Handle>, k: Bytes, b: nat)
    requires ListsOk(lists) && Indexed(index, lists, handles, |lists|) && |index| == |lists|
    requires FirstReaching(index, InternalLess, k, b)
    requires b < |lists| ==> AllLess(lists[b], InternalLess, k, |lists[b]|)
    ensures !Visible(Flat(lists), k)
  {
    hide Flat, Indexed, ListsOk, UserOf, NumberOf, BytesLess, Ascending;
    forall x | x in Flat(lists) ensures !SeenBy(x, k) {
      EarlierAreBefore(index, lists, handles, k, b, x);
      BytesOrder(UserOf(k), UserOf(k));
      if b == |lists| {
        assert lists[..b] == lists;
      } else {
        BeforeInOrAfter(lists, b, x);
        if x !in Flat(lists[..b]) && x !in lists[b] {
          var c, i :| b < c < |lists| && 0 <= i < |lists[c]| && lists[c][i] == x;
          PastTheGap(index, lists, handles, k, b, c, i);
        }
      }
    }
  }

  /** k falls between block b and its index key: the blocks after it have other user keys. */
  lemma PastTheGap(index: seq<Pair>, lists: seq<seq<Pair>>, handles: seq<Handle>, k: Bytes, b: nat, c: nat, i: nat)
    requires ListsOk(lists) && Indexed(index, lists, handles, |lists|) && |index| == |lists|
    requires b < c < |lists| && i < |lists[c]| && !InternalLess(index[b].key, k)
    requires AllLess(lists[b], InternalLess, k, |lists[b]|)
    ensures UserOf(lists[c][i].key) != UserOf(k)
  {
    hide Flat, Indexed, UserOf, NumberOf, BytesLess, Ascending;
    IndexBefore(index, lists, handles, |lists|, b, c, i);
    assert InternalLess(lists[b][|lists[b]| - 1].key, k);
  }

  /** With a filter that never misses: if block b, to which the index leads, has no entry of k's user key,
      none is visible. */
  lemma FilteredOut(index: seq<Pair>, lists: seq<seq<Pair>>, handles: seq<Handle>, k: Bytes, b: nat)
    requires ListsOk(lists) && Indexed(index, lists, handles, |lists|) && |index| == |lists|
    requires FirstReaching(index, InternalLess, k, b) && b < |lists|
    requires forall x :: x in lists[b] ==> UserOf(x.key) != UserOf(k)
    ensures !Visible(Flat(lists), k)
  {
    hide Flat, Indexed, ListsOk, InternalLess, UserOf, NumberOf;
    var j := 0;
    while j < |lists[b]| && InternalLess(lists[b][j].key, k)
      invariant AllLess(lists[b], InternalLess, k, j)
    {
      OneMoreLess(lists[b], InternalLess, k, j);
      j := j + 1;
    }
    if j < |lists[b]| {
      FoundInBlock(index, lists, handles, k, b, j);
      FirstIsNewest(Flat(lists), k, lists[b][j]);
    } else {
      NotFoundInBlock(index, lists, handles, k, b);
    }
  }

  // ------------------------------------------------------------ the table

  predicate SameUser(x: Bytes, k: Bytes) {
    UserOf(x) == UserOf(k)
  }

  /** ReadBlock, without verifying checksums: the bytes of the handle, when the trailer says they are not compressed. */
  method ReadBlock(file: Bytes, h: Handle, ghost es: seq<Pair>) returns (r: Option<Bytes>)
    ensures BlockStands(file, h, es) ==> r == Some(file[h.offset..h.offset + h.size])
  {
    if h.offset + h.size + BLOCK_TRAILER_SIZE > |file| {
      return None;
    }
    if file[h.offset + h.size] != 0 {
      return None;
    }
    r := Some(file[h.offset..h.offset + h.size]);
  }

  method NewBlockIter(file: Bytes, h: Handle, ghost es: seq<Pair>) returns (ok: bool, it: Iter)
    ensures fresh(it) && it.Valid()
    ensures BlockStands(file, h, es) ==> ok && it.Sound() && it.es == es && it.less == InternalLess && !it.corrupt
  {
    hide IsBlock, BlockStands, Iter.Valid;
    ok, it := NewIter(file, h, InternalLess, es);
  }

  /** An iterator over the block of a handle; one that never has anything when there is no block. */
  method NewIter(file: Bytes, h: Handle, less: (Bytes, Bytes) -> bool, ghost es: seq<Pair>) returns (ok: bool, it: Iter)
    ensures fresh(it) && it.Valid()
    ensures BlockStands(file, h, es) ==> ok && it.Sound() && it.es == es && it.less == less && !it.corrupt
  {
    hide IsBlock;
    var data := ReadBlock(file, h, es);
    ok := data.Some? && Readable(data.value);
    ghost var starts: seq<nat> := [0];
    if BlockStands(file, h, es) {
      starts :| IsBlock(data.value, es, starts);
      BlockReadable(data.value, es, starts);
    }
    if ok {
      it := new Iter(data.value, less, es, starts);
    } else {
      EmptyBlock();
      it := new Iter(EMPTY_BLOCK, less, [], [0]);
    }
  }

  /** Stands for an iterator that never has anything. */
  const EMPTY_BLOCK: Bytes := [0, 0, 0, 0, 1, 0, 0, 0]

  lemma EmptyBlock()
    ensures Readable(EMPTY_BLOCK)
  {
    assert EMPTY_BLOCK[4..] == [1, 0, 0, 0];
  }

  lemma BlockReadable(b: Bytes, es: seq<Pair>, starts: seq<nat>)
    requires IsBlock(b, es, starts)
    ensures Readable(b)
  {
    hide Readable, Body, AreOffsets;
    var rs :| Finished(b, es, starts, rs);
    BlockTail(b, es, starts, rs);
  }

  class Table {
    const file: Bytes
    const indexHandle: Handle
    const hasFilter: bool
    const filterData: Bytes
    const may: (Bytes, Bytes) -> bool

    constructor (file: Bytes, indexHandle: Handle, hasFilter: bool, filterData: Bytes, may: (Bytes, Bytes) -> bool)
      ensures this.file == file && this.indexHandle == indexHandle && this.hasFilter == hasFilter && this.filterData == filterData
      ensures this.may == may
    {
      this.file, this.indexHandle, this.hasFilter, this.filterData, this.may := file, indexHandle, hasFilter, filterData, may;
    }

    /** The handle the index has for k; of a built table, that of the first block whose index key is not before k. */
    method FindHandle(k: Bytes, ghost index: seq<Pair>, ghost lists: seq<seq<Pair>>, ghost handles: seq<Handle>)
      returns (r: Option<Handle>, ghost b: nat)
      ensures TableOk(file, indexHandle, index, lists, handles) ==>
        FirstReaching(index, InternalLess, k, b) && r == if b < |lists| then Some(handles[b]) else None
    {
      hide Flat, InternalLess, IsBlock, Ascending, FirstReaching, Body, Off, HandleBytes, BlockStands, Transitive, ListsOk, Indexed;
      ghost var near := TableOk(file, indexHandle, index, lists, handles);
      if near {
        IndexAscends(index, lists, handles, |lists|);
        LessIsTransitive();
      }
      var ok, iiter := NewBlockIter(file, indexHandle, index);
      iiter.Seek(k);
      b := iiter.at;
      if near { AtIsInside(index, k, b); }
      r := None;
      if iiter.IsValid() {
        if near {
          iiter.KeyOfCurrent();
          IndexValue(file, indexHandle, index, lists, handles, b);
        }
        r := DecodeHandle(Slice(iiter.data, iiter.valueAt, iiter.valueLength), if near then handles[b] else Handle(0, 0));
      }
    }

    /** The first entry of a block not before k. */
    method SearchBlock(h: Handle, k: Bytes, ghost es: seq<Pair>) returns (r: Option<Pair>)
      ensures BlockStands(file, h, es) && Ascending(es, InternalLess) ==>
        if r.Some? then exists j :: 0 <= j < |es| && es[j] == r.value && FirstReaching(es, InternalLess, k, j)
        else AllLess(es, InternalLess, k, |es|)
    {
      hide InternalLess, IsBlock, Ascending, AllLess, Body, Off, BlockStands, Transitive;
      ghost var near := BlockStands(file, h, es) && Ascending(es, InternalLess);
      LessIsTransitive();
      var ok, it := NewBlockIter(file, h, es);
      it.Seek(k);
      r := None;
      if it.IsValid() {
        if near { it.KeyOfCurrent(); }
        r := Some(Pair(it.key, Slice(it.data, it.valueAt, it.valueLength)));
      }
    }

    /** InternalGet: never misses. Of a table that was built from these blocks, it reports the first entry not
        before k, unless there is no entry of k's user key that is no newer than k. */
    method InternalGet(k: Bytes, ghost index: seq<Pair>, ghost lists: seq<seq<Pair>>, ghost handles: seq<Handle>,
                       ghost made: seq<seq<Bytes>>, ghost create: seq<Bytes> -> Bytes) returns (r: Option<Pair>)
      ensures Built(this, index, lists, handles, made, create) ==>
        if r.Some? then FirstNotBefore(Flat(lists), k, r.value) else !Visible(Flat(lists), k)
    {
      hide Flat, InternalLess, FirstReaching, BlockStands, ListsOk, Indexed, FilterCovers, NeverMisses, IsFilterBlock,
        Filters, Visible, FirstNotBefore;
      ghost var near := Built(this, index, lists, handles, made, create);
      var h; ghost var b;
      h, b := FindHandle(k, index, lists, handles);
      r := None;
      if h.None? {
        if near { NoBlock(index, lists, handles, k, b); }
        return;
      }
      if hasFilter {
        var filter := new FilterReader(filterData, may);
        var mayMatch := filter.KeyMayMatch(h.value.offset, k, made, create);
        if !mayMatch {
          if near { FilterTold(this, index, lists, handles, made, create, k, b); }
          return;
        }
      }
      r := SearchBlock(h.value, k, if near then lists[b] else []);
      if near { BlockTold(file, indexHandle, index, lists, handles, k, b, r); }
    }
  }

  /** What the table was built from. */
  ghost predicate Built(t: Table, index: seq<Pair>, lists: seq<seq<Pair>>, handles: seq<Handle>, made: seq<seq<Bytes>>, create: seq<Bytes> -> Bytes) {
    TableOk(t.file, t.indexHandle, index, lists, handles) && (t.hasFilter ==>
      IsFilterBlock(t.filterData, made, create) && |Filters(made, create)| < 0x1_0000_0000 &&
      FilterCovers(lists, handles, made) && NeverMisses(create, t.may, SameUser))
  }

  lemma AtIsInside(index: seq<Pair>, k: Bytes, b: nat)
    requires FirstReaching(index, InternalLess, k, b)
    ensures b <= |index|
  {
  }

  lemma IndexValue(file: Bytes, indexHandle: Handle, index: seq<Pair>, lists: seq<seq<Pair>>, handles: seq<Handle>, b: nat)
    requires TableOk(file, indexHandle, index, lists, handles) && b < |index|
    ensures index[b].value == HandleBytes(handles[b]) && HandleOk(handles[b]) && StandsAt(index[b].value, 0, |index[b].value|, HandleBytes(handles[b]))
  {
    hide Flat, ListsOk, HandleBytes, HasEntries;
    var v := index[b].value;
    assert v == HandleBytes(handles[b]) && v[0..|v|] == v;
    assert BlockStands(file, handles[b], lists[b]);
  }

  lemma NoBlock(index: seq<Pair>, lists: seq<seq<Pair>>, handles: seq<Handle>, k: Bytes, b: nat)
    requires ListsOk(lists) && Indexed(index, lists, handles, |lists|) && |index| == |lists|
    requires FirstReaching(index, InternalLess, k, b) && b >= |lists|
    ensures !Visible(Flat(lists), k)
  {
    hide Flat, InternalLess, ListsOk, Indexed, Visible;
    NotFoundInBlock(index, lists, handles, k, b);
  }

  lemma FilterTold(t: Table, index: seq<Pair>, lists: seq<seq<Pair>>, handles: seq<Handle>, made: seq<seq<Bytes>>, create: seq<Bytes> -> Bytes,
                   k: Bytes, b: nat)
    requires Built(t, index, lists, handles, made, create) && t.hasFilter && b < |lists| && FirstReaching(index, InternalLess, k, b)
    requires var o := handles[b].offset / FILTER_BASE; o < |made| && !t.may(k, FilterOf(made[o], create))
    ensures !Visible(Flat(lists), k)
  {
    hide Flat, InternalLess, ListsOk, Indexed, Visible, NeverMisses, IsFilterBlock, FirstReaching, UserOf, BlockStands;
    forall x | x in lists[b] ensures UserOf(x.key) != UserOf(k) {
      if UserOf(x.key) == UserOf(k) {
        AddedMatches(made, create, t.may, SameUser, Mark(handles[b].offset, x.key), k);
      }
    }
    FilteredOut(index, lists, handles, k, b);
  }

  lemma BlockTold(file: Bytes, indexHandle: Handle, index: seq<Pair>, lists: seq<seq<Pair>>, handles: seq<Handle>, k: Bytes, b: nat, r: Option<Pair>)
    requires TableOk(file, indexHandle, index, lists, handles) && b < |lists| && FirstReaching(index, InternalLess, k, b)
    requires Ascending(lists[b], InternalLess) ==>
      if r.Some? then exists j :: 0 <= j < |lists[b]| && lists[b][j] == r.value && FirstReaching(lists[b], InternalLess, k, j)
      else AllLess(lists[b], InternalLess, k, |lists[b]|)
    ensures if r.Some? then FirstNotBefore(Flat(lists), k, r.value) else !Visible(Flat(lists), k)
  {
    hide Flat, InternalLess, ListsOk, Indexed, Visible, BlockStands, FirstNotBefore, Ascending;
    OneBlockAscends(lists, b);
    if r.Some? {
      var j :| 0 <= j < |lists[b]| && lists[b][j] == r.value && FirstReaching(lists[b], InternalLess, k, j);
      FoundInBlock(index, lists, handles, k, b, j);
    } else {
      NotFoundInBlock(index, lists, handles, k, b);
    }
  }
}
