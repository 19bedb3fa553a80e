/** The iterator over a table: an iterator over the index, and one over the block it leads to. */
module TwoLevel {
  import opened Coding
  import opened BlockFormat
  import opened Blocks
  import opened BlockIters
  import opened Separators
  import opened TableFormat
  import opened TableReader

  class TwoLevelIterator {
    const file: Bytes
    const indexIter: Iter
    var dataIter: Iter?
    var dataBlockHandle: Bytes
    /** What the table was built from, and which block dataIter is over. */
    ghost const indexHandle: Handle
    ghost const lists: seq<seq<Pair>>
    ghost const handles: seq<Handle>
    ghost var blk: nat

    ghost predicate Sound() {
      TableOk(file, indexHandle, indexIter.es, lists, handles) && indexIter.Sound() && indexIter.less == InternalLess
    }

    ghost predicate DataValid()
      reads this, dataIter
    {
      (dataIter != null ==> dataIter != indexIter && dataIter.Valid() && dataIter.Sound() && dataIter.less == InternalLess) &&
      (dataIter != null ==> blk < |lists| && |handles| == |lists| && dataIter.es == lists[blk] && dataBlockHandle == HandleBytes(handles[blk]))
    }

    ghost predicate Valid()
      reads this, indexIter, dataIter
    {
      Sound() && indexIter.Valid() && DataValid() && (IsValid() ==> indexIter.at == blk)
    }

    predicate IsValid()
      reads this, dataIter
    {
      dataIter != null && dataIter.IsValid()
    }

    /** The entry it stands on among all; their number when it stands on none. */
    ghost function Position(): nat
      requires DataValid()
      reads this, dataIter
    {
      if dataIter != null && dataIter.IsValid() then StartOf(lists, blk) + dataIter.at else |Flat(lists)|
    }

    /** Only the block's own number of entries is missing at its end. */
    lemma FirstIsEntry()
      requires Sound() && DataValid() && dataIter != null
      ensures dataIter.IsValid() <==> dataIter.at < |dataIter.es|
      ensures dataIter.es != [] && StartOf(lists, blk + 1) == StartOf(lists, blk) + |lists[blk]| && |lists| == |indexIter.es|
    {
      hide IsBlock, Body, Off, HandleBytes, Flat, Indexed, AllStand;
      FlatStep(lists, blk);
    }

    constructor (file: Bytes, indexIter: Iter, ghost indexHandle: Handle, ghost lists: seq<seq<Pair>>, ghost handles: seq<Handle>)
      requires TableOk(file, indexHandle, indexIter.es, lists, handles)
      requires indexIter.Valid() && indexIter.Sound() && indexIter.less == InternalLess
      ensures Valid() && dataIter == null && this.indexIter == indexIter && this.lists == lists
    {
      hide TableOk, IsBlock, Iter.Valid, Flat;
      this.file, this.indexIter, this.indexHandle, this.lists, this.handles := file, indexIter, indexHandle, lists, handles;
      dataIter, dataBlockHandle, blk := null, [], 0;
    }

    /** The block the index iterator stands on, unless it is there already. */
    method InitDataBlock()
      requires Sound() && indexIter.Valid() && DataValid()
      modifies this`dataIter, this`dataBlockHandle, this`blk
      ensures DataValid() && (dataIter == null || dataIter == old(dataIter) || fresh(dataIter))
      ensures (dataIter == null) == (indexIter.at >= |lists|) && (dataIter != null ==> blk == indexIter.at)
    {
      hide IsBlock, Body, Off, HandleBytes, ListsOk, Indexed, HasEntries, Flat;
      IndexIsFull(file, indexHandle, indexIter.es, lists, handles);
      if !indexIter.IsValid() {
        dataIter := null;
      } else {
        indexIter.KeyOfCurrent();
        IndexValue(file, indexHandle, indexIter.es, lists, handles, indexIter.at);
        var handle := Slice(indexIter.data, indexIter.valueAt, indexIter.valueLength);
        if dataIter != null && handle == dataBlockHandle {
          SameBlock(file, indexHandle, indexIter.es, lists, handles, blk, indexIter.at);
        } else {
          var h := DecodeHandle(handle, handles[indexIter.at]);
          var ok, iter := NewBlockIter(file, h.value, lists[indexIter.at]);
          dataBlockHandle := handle;
          dataIter := iter;
          blk := indexIter.at;
        }
      }
    }

    /** The next block, from its first entry. */
    method NextBlock()
      requires Valid() && !IsValid() && indexIter.IsValid()
      modifies this`dataIter, this`dataBlockHandle, this`blk, indexIter, dataIter
      ensures Valid() && (dataIter == null || dataIter == old(dataIter) || fresh(dataIter)) && indexIter.at == old(indexIter.at) + 1
      ensures IsValid() <==> indexIter.at < |lists|
      ensures Position() == StartAfter(lists, old(indexIter.at))
    {
      hide IsBlock, Body, Off, HandleBytes, Flat, TableOk, Iter.On, Iter.Layout, Iter.NextEntryOffset;
      IndexIsFull(file, indexHandle, indexIter.es, lists, handles);
      NothingAfter(lists, indexIter.at);
      indexIter.Next();
      InitDataBlock();
      if dataIter != null {
        dataIter.SeekToFirst();
        FirstIsEntry();
      }
    }

    /** The block before, from its last entry. */
    method PrevBlock()
      requires Valid() && !IsValid() && indexIter.IsValid()
      modifies this`dataIter, this`dataBlockHandle, this`blk, indexIter, dataIter
      ensures Valid() && (dataIter == null || dataIter == old(dataIter) || fresh(dataIter))
      ensures IsValid() <==> old(indexIter.at) > 0
      ensures IsValid() ==> indexIter.at == old(indexIter.at) - 1
      ensures !IsValid() ==> indexIter.at == |lists|
      ensures Position() == EndBefore(lists, old(indexIter.at))
    {
      hide IsBlock, Body, Off, HandleBytes, Flat, TableOk, Iter.On, Iter.Layout, Iter.NextEntryOffset;
      IndexIsFull(file, indexHandle, indexIter.es, lists, handles);
      IndexBounds();
      indexIter.Prev();
      InitDataBlock();
      if dataIter != null {
        dataIter.SeekToLast();
        FirstIsEntry();
      }
    }

    /** On to the first entry of the next block, if the data iterator stands on nothing. */
    method SkipEmptyDataBlocksForward()
      requires Valid()
      modifies this`dataIter, this`dataBlockHandle, this`blk, indexIter, dataIter
      ensures Valid() && (dataIter == null || dataIter == old(dataIter) || fresh(dataIter))
      ensures Position() == if old(IsValid()) then old(Position()) else StartAfter(lists, old(indexIter.at))
    {
      hide Flat, TwoLevelIterator.Sound, Iter.Valid, StartAfter;
      NothingAfter(lists, indexIter.at);
      IndexBounds();
      while dataIter == null || !dataIter.IsValid()
        invariant Valid() && (dataIter == null || dataIter == old(dataIter) || fresh(dataIter))
        invariant IsValid() ==> Position() == if old(IsValid()) then old(Position()) else StartAfter(lists, old(indexIter.at))
        invariant !IsValid() ==> !old(IsValid())
        invariant !IsValid() && indexIter.at != old(indexIter.at) ==> indexIter.at >= |lists| && StartAfter(lists, old(indexIter.at)) == |Flat(lists)|
        decreases |lists| - indexIter.at, if IsValid() then 0 else 1
      {
        IndexBounds();
        if !indexIter.IsValid() {
          dataIter := null;
          return;
        }
        NextBlock();
      }
    }

    /** Back to the last entry of the block before, if the data iterator stands on nothing. */
    method SkipEmptyDataBlocksBackward()
      requires Valid()
      modifies this`dataIter, this`dataBlockHandle, this`blk, indexIter, dataIter
      ensures Valid() && (dataIter == null || dataIter == old(dataIter) || fresh(dataIter))
      ensures Position() == if old(IsValid()) then old(Position()) else if old(indexIter.IsValid()) then EndBefore(lists, old(indexIter.at)) else |Flat(lists)|
    {
      hide Flat, TwoLevelIterator.Sound, Iter.Valid, EndBefore;
      IndexBounds();
      NothingBefore(lists);
      while dataIter == null || !dataIter.IsValid()
        invariant Valid() && (dataIter == null || dataIter == old(dataIter) || fresh(dataIter))
        invariant IsValid() && !old(IsValid()) ==> old(indexIter.IsValid()) && Position() == EndBefore(lists, old(indexIter.at))
        invariant IsValid() && old(IsValid()) ==> Position() == old(Position())
        invariant !IsValid() ==> !old(IsValid())
        invariant !IsValid() && indexIter.at != old(indexIter.at) ==> !indexIter.IsValid() && old(indexIter.at) == 0
        invariant indexIter.at == old(indexIter.at) ==> indexIter.IsValid() == old(indexIter.IsValid())
        decreases if IsValid() then 0 else if indexIter.IsValid() then 2 else 1, indexIter.at
      {
        IndexBounds();
        if !indexIter.IsValid() {
          dataIter := null;
          return;
        }
        PrevBlock();
        IndexBounds();
      }
    }

    method SeekToFirst()
      requires Valid()
      modifies this`dataIter, this`dataBlockHandle, this`blk, indexIter, dataIter
      ensures Valid() && (dataIter == null || dataIter == old(dataIter) || fresh(dataIter)) && Position() == 0
    {
      hide IsBlock, Body, Off, HandleBytes, Flat, TableOk, Iter.On, Iter.Layout, Iter.NextEntryOffset;
      IndexIsFull(file, indexHandle, indexIter.es, lists, handles);
      indexIter.SeekToFirst();
      InitDataBlock();
      if dataIter != null {
        dataIter.SeekToFirst();
        FirstIsEntry();
      }
      StartsOfBlocks(lists);
      IndexBounds();
      SkipEmptyDataBlocksForward();
    }

    method SeekToLast()
      requires Valid()
      modifies this`dataIter, this`dataBlockHandle, this`blk, indexIter, dataIter
      ensures Valid() && (dataIter == null || dataIter == old(dataIter) || fresh(dataIter))
      ensures Position() == if Flat(lists) == [] then 0 else |Flat(lists)| - 1
    {
      hide IsBlock, Body, Off, HandleBytes, Flat, TableOk, Iter.On, Iter.Layout, Iter.NextEntryOffset;
      IndexIsFull(file, indexHandle, indexIter.es, lists, handles);
      indexIter.SeekToLast();
      InitDataBlock();
      if dataIter != null {
        dataIter.SeekToLast();
        FirstIsEntry();
      }
      StartsOfBlocks(lists);
      IndexBounds();
      SkipEmptyDataBlocksBackward();
    }

    method Next()
      requires Valid() && IsValid()
      modifies this`dataIter, this`dataBlockHandle, this`blk, indexIter, dataIter
      ensures Valid() && (dataIter == null || dataIter == old(dataIter) || fresh(dataIter)) && Position() == old(Position()) + 1
    {
      hide IsBlock, Body, Off, HandleBytes, Flat, TableOk, Iter.On, Iter.Layout, Iter.NextEntryOffset;
      IndexIsFull(file, indexHandle, indexIter.es, lists, handles);
      FirstIsEntry();
      dataIter.Next();
      FirstIsEntry();
      SkipEmptyDataBlocksForward();
    }

    method Prev()
      requires Valid() && IsValid()
      modifies this`dataIter, this`dataBlockHandle, this`blk, indexIter, dataIter
      ensures Valid() && (dataIter == null || dataIter == old(dataIter) || fresh(dataIter))
      ensures Position() == if old(Position()) == 0 then |Flat(lists)| else old(Position()) - 1
    {
      hide IsBlock, Body, Off, HandleBytes, Flat, TableOk, Iter.On, Iter.Layout, Iter.NextEntryOffset;
      IndexIsFull(file, indexHandle, indexIter.es, lists, handles);
      FirstIsEntry();
      IndexBounds();
      StartsOfBlocks(lists);
      dataIter.Prev();
      FirstIsEntry();
      SkipEmptyDataBlocksBackward();
    }

    /** To the first entry not before the target. */
    method Seek(target: Bytes)
      requires Valid()
      modifies this`dataIter, this`dataBlockHandle, this`blk, indexIter, dataIter
      ensures Valid() && (dataIter == null || dataIter == old(dataIter) || fresh(dataIter))
      ensures FirstReaching(Flat(lists), InternalLess, target, Position())
    {
      hide IsBlock, Body, Off, HandleBytes, Flat, TableOk, Iter.On, Iter.Layout, Iter.NextEntryOffset, FirstReaching,
        AllLess, Ascending, Transitive, ListsOk, Indexed;
      IndexIsFull(file, indexHandle, indexIter.es, lists, handles);
      TableOrder(file, indexHandle, indexIter.es, lists, handles);
      indexIter.Seek(target);
      InitDataBlock();
      if dataIter != null {
        dataIter.Seek(target);
        FirstIsEntry();
      }
      IndexBounds();
      SeekPosition(indexIter.es, lists, handles, target, indexIter.at, if dataIter != null then dataIter.at else 0);
      SkipEmptyDataBlocksForward();
    }

    /** The key and value it stands on are those of the entry at its position. */
    lemma OnEntry()
      requires Valid() && IsValid()
      ensures Position() < |Flat(lists)| && dataIter.key == Flat(lists)[Position()].key
      ensures Slice(dataIter.data, dataIter.valueAt, dataIter.valueLength) == Flat(lists)[Position()].value
    {
      hide IsBlock, Body, Off, HandleBytes, Flat, TableOk;
      dataIter.KeyOfCurrent();
      FlatAt(lists, blk, dataIter.at);
    }

    lemma IndexBounds()
      requires Sound() && indexIter.Valid()
      ensures indexIter.at <= |lists| && (indexIter.IsValid() <==> indexIter.at < |lists|)
    {
      hide IsBlock, Body, Off, Flat, TableOk;
      IndexIsFull(file, indexHandle, indexIter.es, lists, handles);
    }
  }

  /** Where the block after b begins. */
  ghost function StartAfter(lists: seq<seq<Pair>>, b: nat): nat {
    if b + 1 <= |lists| then StartOf(lists, b + 1) else |Flat(lists)|
  }

  /** Where the block before b ends; after everything, when there is none before. */
  ghost function EndBefore(lists: seq<seq<Pair>>, b: nat): nat {
    if 0 < b <= |lists| && StartOf(lists, b) > 0 then StartOf(lists, b) - 1 else |Flat(lists)|
  }

  lemma NothingBefore(lists: seq<seq<Pair>>)
    ensures EndBefore(lists, 0) == |Flat(lists)|
  {
  }

  lemma NothingAfter(lists: seq<seq<Pair>>, b: nat)
    ensures b + 1 >= |lists| ==> StartAfter(lists, b) == |Flat(lists)|
  {
    assert lists[..|lists|] == lists;
  }

  lemma IndexIsFull(file: Bytes, indexHandle: Handle, index: seq<Pair>, lists: seq<seq<Pair>>, handles: seq<Handle>)
    requires TableOk(file, indexHandle, index, lists, handles)
    ensures |index| == |lists| == |handles| && forall b :: 0 <= b < |lists| ==> lists[b] != []
  {
    hide Flat, Indexed, AllStand;
  }

  lemma SameBlock(file: Bytes, indexHandle: Handle, index: seq<Pair>, lists: seq<seq<Pair>>, handles: seq<Handle>, b: nat, c: nat)
    requires TableOk(file, indexHandle, index, lists, handles) && b < |lists| && c < |lists|
    requires HandleBytes(handles[b]) == HandleBytes(handles[c])
    ensures b == c
  {
    hide Flat, ListsOk, Indexed, HandleBytes, BlockStands;
    HandlesDiffer(handles[b], handles[c]);
  }

  lemma StartsOfBlocks(lists: seq<seq<Pair>>)
    requires forall b :: 0 <= b < |lists| ==> lists[b] != []
    ensures StartOf(lists, 0) == 0 && StartOf(lists, |lists|) == |Flat(lists)| && (lists == [] <==> Flat(lists) == [])
    ensures forall b :: 0 < b <= |lists| ==> StartOf(lists, b) > 0
  {
    assert lists[..0] == [] && lists[..|lists|] == lists;
    forall b | 0 < b <= |lists| ensures StartOf(lists, b) > 0 {
      FlatStep(lists, b - 1);
    }
  }

  lemma TableOrder(file: Bytes, indexHandle: Handle, index: seq<Pair>, lists: seq<seq<Pair>>, handles: seq<Handle>)
    requires TableOk(file, indexHandle, index, lists, handles)
    ensures ListsOk(lists) && Indexed(index, lists, handles, |lists|) && |index| == |lists| == |handles| && Transitive(InternalLess)
    ensures Ascending(index, InternalLess) && forall b :: 0 <= b < |lists| ==> Ascending(lists[b], InternalLess)
  {
    hide Flat, InternalLess, Ascending, ListsOk, Indexed, Transitive, AllStand;
    LessIsTransitive();
    IndexAscends(index, lists, handles, |lists|);
    forall b | 0 <= b < |lists| ensures Ascending(lists[b], InternalLess) { OneBlockAscends(lists, b); }
  }

  lemma StartsGrow(lists: seq<seq<Pair>>, b: nat, c: nat)
    requires b <= c <= |lists|
    ensures StartOf(lists, b) <= StartOf(lists, c)
  {
    hide Flat;
    FlatGrows(lists, b, c);
  }

  /** Entry p, before the one the seek arrives at, is before the target. */
  lemma PassedOver(index: seq<Pair>, lists: seq<seq<Pair>>, handles: seq<Handle>, k: Bytes, b: nat, j: nat, p: nat)
    requires ListsOk(lists) && Indexed(index, lists, handles, |lists|) && |index| == |lists|
    requires AllLess(index, InternalLess, k, b) && (b < |lists| ==> AllLess(lists[b], InternalLess, k, j))
    requires p < |Flat(lists)| && (b < |lists| ==> p < StartOf(lists, b) + j)
    ensures InternalLess(Flat(lists)[p].key, k)
  {
    hide Flat, InternalLess, ListsOk, Indexed;
    var c, i := BlockOf(lists, p);
    FlatAt(lists, c, i);
    if c < b {
      IndexAfter(index, lists, handles, |lists|, c, i);
      assert InternalLess(index[c].key, k);
      if index[c].key != lists[c][i].key { InternalTransitive(lists[c][i].key, index[c].key, k); }
    } else {
      FlatStep(lists, b);
      if b < c { StartsGrow(lists, b + 1, c); }
    }
  }

  /** From the block the index leads to: the first entry there, or the first of the next block, is the first of all. */
  lemma SeekPosition(index: seq<Pair>, lists: seq<seq<Pair>>, handles: seq<Handle>, k: Bytes, b: nat, j: nat)
    requires ListsOk(lists) && Indexed(index, lists, handles, |lists|) && |index| == |lists|
    requires FirstReaching(index, InternalLess, k, b) && (b < |lists| ==> FirstReaching(lists[b], InternalLess, k, j))
    ensures FirstReaching(Flat(lists), InternalLess, k,
              if b < |lists| && j < |lists[b]| then StartOf(lists, b) + j else StartAfter(lists, b))
  {
    hide Flat, InternalLess, ListsOk, Indexed;
    NothingAfter(lists, b);
    var all := Flat(lists);
    var at := if b < |lists| && j < |lists[b]| then StartOf(lists, b) + j else StartAfter(lists, b);
    if b < |lists| {
      FlatStep(lists, b);
      if j < |lists[b]| {
        FlatAt(lists, b, j);
      } else if b + 1 < |lists| {
        AfterTheGap(index, lists, handles, k, b);
      } else {
        assert lists[..|lists|] == lists;
      }
    }
    forall p | 0 <= p < at ensures InternalLess(all[p].key, k) { PassedOver(index, lists, handles, k, b, j, p); }
  }

  lemma AfterTheGap(index: seq<Pair>, lists: seq<seq<Pair>>, handles: seq<Handle>, k: Bytes, b: nat)
    requires ListsOk(lists) && Indexed(index, lists, handles, |lists|) && |index| == |lists|
    requires b + 1 < |lists| && !InternalLess(index[b].key, k)
    ensures StartOf(lists, b + 1) < |Flat(lists)| && !InternalLess(Flat(lists)[StartOf(lists, b + 1)].key, k)
  {
    hide Flat, InternalLess, Indexed, Ascending;
    FlatAt(lists, b + 1, 0);
    IndexBefore(index, lists, handles, |lists|, b, b + 1, 0);
    if InternalLess(lists[b + 1][0].key, k) { InternalTransitive(index[b].key, lists[b + 1][0].key, k); }
  }
}
