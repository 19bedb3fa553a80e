/** Tables from end to end: what was added is what is found. */
module Tables {
  import opened Keys
  import opened Coding
  import opened BlockFormat
  import opened Blocks
  import opened BlockIters
  import opened Separators
  import opened FilterBlocks
  import opened TableFormat
  import TB = TableBuilder
  import opened TableReader
  import opened TwoLevel

  /** Table::ReadMeta: the handle of the filter block, from the metaindex block. */
  method ReadMeta(file: Bytes, metaHandle: Handle, filterKey: Bytes, ghost filter: Option<Handle>) returns (r: Option<Handle>)
    ensures BlockStands(file, metaHandle, MetaEntries(filterKey, filter)) && (filter.Some? ==> HandleOk(filter.value)) ==> r == filter
  {
    hide BytesLess, BlockStands, HandleBytes, IsBlock, Body, Off;
    ghost var es := MetaEntries(filterKey, filter);
    ghost var near := BlockStands(file, metaHandle, es) && (filter.Some? ==> HandleOk(filter.value));
    ByteOrder(filterKey);
    var ok, it := NewIter(file, metaHandle, BytesLess, es);
    it.Seek(filterKey);
    r := None;
    if near { MetaFound(es, filterKey, filter, it.at); }
    if it.IsValid() && it.key == filterKey {
      if near { it.KeyOfCurrent(); }
      ghost var h := if near && filter.Some? then filter.value else Handle(0, 0);
      if near { WholeStands(HandleBytes(h)); }
      r := DecodeHandle(Slice(it.data, it.valueAt, it.valueLength), h);
    }
  }

  lemma ByteOrder(key: Bytes)
    ensures Transitive(BytesLess) && !BytesLess(key, key)
  {
    hide BytesLess;
    forall a, b, c | BytesLess(a, b) && BytesLess(b, c) ensures BytesLess(a, c) { BytesTransitive(a, b, c); }
    BytesOrder(key, key);
  }

  lemma WholeStands(x: Bytes)
    ensures StandsAt(x, 0, |x|, x)
  {
  }

  lemma MetaFound(es: seq<Pair>, filterKey: Bytes, filter: Option<Handle>, at: nat)
    requires es == MetaEntries(filterKey, filter) && FirstReaching(es, BytesLess, filterKey, at) && !BytesLess(filterKey, filterKey)
    ensures at == 0 && |es| == (if filter.Some? then 1 else 0)
  {
    hide BytesLess, HandleBytes;
    assert filter.Some? ==> es[0].key == filterKey;
  }

  /** Table::Open. Without a filter policy, or without a filter in the file, the table is read without one. */
  method Open(file: Bytes, usesFilter: bool, filterKey: Bytes, may: (Bytes, Bytes) -> bool, ghost metaHandle: Handle, ghost indexHandle: Handle,
              ghost filter: Option<Handle>, ghost index: seq<Pair>, ghost lists: seq<seq<Pair>>, ghost handles: seq<Handle>,
              ghost made: seq<seq<Bytes>>, ghost create: seq<Bytes> -> Bytes) returns (t: Option<Table>)
    requires usesFilter ==> NeverMisses(create, may, SameUser)
    ensures IsTable(file, filterKey, metaHandle, indexHandle, filter, index, lists, handles, made, create) ==>
      t.Some? && Built(t.value, index, lists, handles, made, create) && t.value.indexHandle == indexHandle && t.value.file == file
  {
    hide TableOk, FilterCovers, IsFilterBlock, NeverMisses, Filters, BlockStands, FooterStands, MetaEntries;
    ghost var near := IsTable(file, filterKey, metaHandle, indexHandle, filter, index, lists, handles, made, create);
    t := None;
    var footer := ReadFooter(file, metaHandle, indexHandle);
    if footer.None? {
      return;
    }
    if near { IndexStands(file, indexHandle, index, lists, handles); }
    var contents := ReadBlock(file, footer.value.1, index);
    if contents.None? {
      return;
    }
    var data: Bytes := [];
    var found := false;
    if usesFilter {
      var h := ReadMeta(file, footer.value.0, filterKey, filter);
      if h.Some? {
        var block := ReadFilterBlock(file, h.value, made, create);
        found := block.Some?;
        data := if found then block.value else [];
      }
    }
    var table := new Table(file, footer.value.1, found, data, may);
    t := Some(table);
  }

  /** Table::ReadFilter. */
  method ReadFilterBlock(file: Bytes, h: Handle, ghost made: seq<seq<Bytes>>, ghost create: seq<Bytes> -> Bytes) returns (r: Option<Bytes>)
    ensures TB.FilterStands(file, h, made, create) && h.size < 0x1_0000_0000 ==>
      r.Some? && IsFilterBlock(r.value, made, create) && |Filters(made, create)| < 0x1_0000_0000
  {
    hide IsFilterBlock, Filters;
    if h.offset + h.size + BLOCK_TRAILER_SIZE > |file| || file[h.offset + h.size] != 0 {
      return None;
    }
    r := Some(file[h.offset..h.offset + h.size]);
    FilterSize(r.value, made, create);
  }

  /** The file is a table of these blocks, with a filter block where filter says. */
  ghost predicate IsTable(file: Bytes, filterKey: Bytes, metaHandle: Handle, indexHandle: Handle, filter: Option<Handle>, index: seq<Pair>,
                          lists: seq<seq<Pair>>, handles: seq<Handle>, made: seq<seq<Bytes>>, create: seq<Bytes> -> Bytes) {
    TableOk(file, indexHandle, index, lists, handles) && FooterStands(file, metaHandle, indexHandle) &&
    BlockStands(file, metaHandle, MetaEntries(filterKey, filter)) &&
    (filter.Some? ==> HandleOk(filter.value) && filter.value.size < 0x1_0000_0000 && TB.FilterStands(file, filter.value, made, create) &&
                      FilterCovers(lists, handles, made))
  }

  lemma FilterSize(data: Bytes, made: seq<seq<Bytes>>, create: seq<Bytes> -> Bytes)
    ensures IsFilterBlock(data, made, create) ==> |Filters(made, create)| <= |data|
  {
    hide Filters, Fixed32s;
  }

  ghost predicate Addable(entries: seq<Pair>) {
    Ascending(entries, InternalLess) && forall p :: p in entries ==> LongEnough(p.key) && |p.key| < MAX_SIZE && |p.value| < MAX_SIZE
  }

  // ------------------------------------------------------------ how large a table gets

  /** The bytes of an entry, and what it needs besides in its block and in the index. */
  function Weight(entries: seq<Pair>): nat {
    if entries == [] then 0 else Weight(entries[..|entries| - 1]) + Heavy(entries[|entries| - 1])
  }

  function Heavy(p: Pair): nat {
    |p.key| + |p.value| + 40
  }

  const MAX_WEIGHT: nat := 0x8000_0000

  lemma {:induction false} WeightGrows(entries: seq<Pair>, i: nat)
    requires i <= |entries|
    ensures 40 * i <= Weight(entries[..i]) <= Weight(entries)
    ensures i < |entries| ==> Weight(entries[..i + 1]) == Weight(entries[..i]) + Heavy(entries[i])
    decreases |entries|, i
  {
    if i > 0 {
      WeightGrows(entries[..i], i - 1);
      assert entries[..i][..i - 1] == entries[..i - 1];
    }
    if i == |entries| {
      assert entries[..i] == entries;
    } else {
      assert entries[..i + 1][..i] == entries[..i];
      WeightGrows(entries[..|entries| - 1], i);
      assert entries[..|entries| - 1][..i] == entries[..i];
    }
  }

  /** What is being built is no larger than its entries account for. */
  ghost predicate Bounded(b: TB.TableBuilder, weight: nat, n: nat)
    reads b, b.dataBlock, b.indexBlock, b.filterBlock
  {
    b.FileSize() <= weight + 4 && b.IndexSize() <= weight && (b.hasFilter ==> b.filterBlock.Total() <= n)
  }

  /** There is room for what these entries make. */
  lemma RoomFor(b: TB.TableBuilder, weight: nat, n: nat)
    requires b.Valid() && Bounded(b, weight, n) && weight <= MAX_WEIGHT
    ensures b.offset < TB.MAX_FILE && |b.indexBlock.buffer| < MAX_SIZE
  {
    hide TB.Consistent, TB.FilterKnows;
  }

  /** Adds the entries to a new table; it fails only when the table gets too large for its offsets. */
  method Build(entries: seq<Pair>, b: TB.TableBuilder) returns (ok: bool)
    requires b.Valid() && b.Filling() && !b.closed && b.Entries() == [] && Addable(entries) && Bounded(b, 0, 0)
    modifies b, b.dataBlock, b.indexBlock, b.filterBlock
    ensures b.Valid() && b.Filling() && !b.closed && (ok ==> b.Entries() == entries && b.Room())
    ensures b.dataBlock == old(b.dataBlock) || fresh(b.dataBlock)
    ensures b.indexBlock == old(b.indexBlock) && b.filterBlock == old(b.filterBlock)
    ensures ok ==> Bounded(b, Weight(entries), |entries|)
    ensures Weight(entries) <= MAX_WEIGHT ==> ok
  {
    hide InternalLess, Ascending, TB.TableBuilder.Valid, TB.TableBuilder.Entries, TB.TableBuilder.Filling, LongEnough, Weight, Bounded;
    NoWeight(entries);
    for i := 0 to |entries|
      invariant b.Valid() && b.Filling() && !b.closed && b.Entries() == entries[..i]
      invariant b.dataBlock == old(b.dataBlock) || fresh(b.dataBlock)
      invariant b.indexBlock == old(b.indexBlock) && b.filterBlock == old(b.filterBlock)
      invariant Bounded(b, Weight(entries[..i]), i)
    {
      WeightGrows(entries, i);
      if Weight(entries) <= MAX_WEIGHT { RoomFor(b, Weight(entries[..i]), i); }
      if b.offset >= TB.MAX_FILE || |b.indexBlock.buffer| >= MAX_SIZE {
        return false;
      }
      OffsetIsSize(b);
      NextIsAfter(b, entries, i);
      assert entries[i] in entries && entries[..i + 1] == entries[..i] + [entries[i]];
      AddOne(b, entries[i], Weight(entries[..i]), i);
    }
    assert entries[..|entries|] == entries;
    if Weight(entries) <= MAX_WEIGHT { RoomFor(b, Weight(entries), |entries|); }
    OffsetIsSize(b);
    ok := b.offset < TB.MAX_FILE && |b.indexBlock.buffer| < MAX_SIZE;
  }

  lemma NoWeight(entries: seq<Pair>)
    ensures Weight(entries[..0]) == 0
  {
  }

  method AddOne(b: TB.TableBuilder, p: Pair, ghost weight: nat, ghost n: nat)
    requires b.Valid() && b.Filling() && !b.closed && b.Room() && LongEnough(p.key) && |p.key| < MAX_SIZE && |p.value| < MAX_SIZE
    requires (b.numEntries > 0 ==> InternalLess(b.lastKey, p.key)) && Bounded(b, weight, n)
    modifies b, b.dataBlock, b.indexBlock, b.filterBlock
    ensures b.Valid() && b.Filling() && !b.closed && b.Entries() == old(b.Entries()) + [p] && Bounded(b, weight + Heavy(p), n + 1)
    ensures (b.dataBlock == old(b.dataBlock) || fresh(b.dataBlock)) && b.indexBlock == old(b.indexBlock) && b.filterBlock == old(b.filterBlock)
  {
    hide InternalLess, TB.TableBuilder.Valid, TB.TableBuilder.Entries, TB.TableBuilder.Filling, LongEnough,
      TB.TableBuilder.FileSize, TB.TableBuilder.IndexSize;
    b.Add(p.key, p.value);
  }

  lemma OffsetIsSize(b: TB.TableBuilder)
    requires b.Valid()
    ensures b.offset == |b.file|
  {
    hide TB.Consistent, TB.FilterKnows;
  }

  lemma NextIsAfter(b: TB.TableBuilder, entries: seq<Pair>, i: nat)
    requires b.Valid() && i < |entries| && b.Entries() == entries[..i] && Ascending(entries, InternalLess)
    ensures b.numEntries > 0 ==> InternalLess(b.lastKey, entries[i].key)
  {
    hide InternalLess, Flat, TB.With, AllStand, ListsOk, TB.IndexedSoFar, TB.FilterKnows;
  }

  /** The file of a table of the entries, and what it is made of. Always possible when they are not too heavy. */
  method BuildTable(entries: seq<Pair>, blockSize: nat, interval: nat, hasFilter: bool, filterKey: Bytes, create: seq<Bytes> -> Bytes, crc: Bytes -> Word)
    returns (built: bool, file: Bytes, ghost metaHandle: Handle, ghost indexHandle: Handle, filter: Option<Handle>,
             ghost index: seq<Pair>, ghost lists: seq<seq<Pair>>, ghost handles: seq<Handle>, ghost made: seq<seq<Bytes>>)
    requires interval >= 1 && blockSize <= MAX_SIZE && |filterKey| < MAX_SIZE && Addable(entries)
    ensures Weight(entries) <= MAX_WEIGHT && (hasFilter ==> Modest(create)) ==> built
    ensures built ==> IsTable(file, filterKey, metaHandle, indexHandle, filter, index, lists, handles, made, create)
    ensures built ==> Flat(lists) == entries && filter.Some? == hasFilter
  {
    hide Addable, TableOk, FilterCovers, TB.FilterStands, Flat, TB.TableBuilder.Valid, TB.TableBuilder.Entries, TB.TableBuilder.Filling,
         TB.TableBuilder.FileSize, TB.TableBuilder.IndexSize, Modest, Weight, FooterStands, BlockStands, MetaEntries;
    var b := new TB.TableBuilder(blockSize, interval, hasFilter, filterKey, create, crc);
    built := Build(entries, b);
    file, metaHandle, indexHandle, filter, index, lists, handles, made := [], Handle(0, 0), Handle(0, 0), None, [], [], [], [];
    if !built {
      return;
    }
    WeightGrows(entries, |entries|);
    assert entries[..|entries|] == entries;
    ghost var weight, size, indexSize, total := Weight(entries), b.FileSize(), b.IndexSize(), b.filterBlock.Total();
    built, metaHandle, indexHandle, filter, index, made := b.Finish();
    file, lists, handles := b.file, b.flushed, b.handles;
    var filterSize := if filter.Some? then filter.value.size else 0;
    FinishedSize(weight, |entries|, size, indexSize, total, hasFilter && Modest(create), filterSize, |filterKey|);
    if filterSize >= 0x1_0000_0000 {
      built := false;
    }
  }

  lemma FinishedSize(weight: nat, n: nat, size: nat, indexSize: nat, total: nat, modest: bool, filter: nat, name: nat)
    requires weight <= MAX_WEIGHT ==> size <= weight + 4 && indexSize <= weight && 40 * n <= weight
    requires modest ==> total <= n && filter <= 64 * total + 4 * ((size + 9) / FILTER_BASE) + 9
    requires name < MAX_SIZE
    ensures weight <= MAX_WEIGHT && (modest || filter == 0) ==> size + 3 * indexSize + name + filter + 200 < TB.MAX_FILE && filter < 0x1_0000_0000
  {
  }

  /** A lookup in a table built from the entries, and read with or without the filter, never misses the newest
      entry that k can see. */
  method BuildAndGet(entries: seq<Pair>, blockSize: nat, interval: nat, hasFilter: bool, filterKey: Bytes, create: seq<Bytes> -> Bytes,
                     usesFilter: bool, may: (Bytes, Bytes) -> bool, crc: Bytes -> Word, k: Bytes) returns (built: bool, r: Option<Pair>)
    requires interval >= 1 && blockSize <= MAX_SIZE && |filterKey| < MAX_SIZE && Addable(entries) && (usesFilter ==> NeverMisses(create, may, SameUser))
    ensures Weight(entries) <= MAX_WEIGHT && (hasFilter ==> Modest(create)) ==> built
    ensures built ==> if r.Some? then FirstNotBefore(entries, k, r.value) else !Visible(entries, k)
  {
    hide Addable, NeverMisses, IsTable, Flat, InternalLess, FirstNotBefore, Visible, Modest, Weight, Built;
    ghost var metaHandle, indexHandle, index, lists, handles, made;
    var file, filter;
    built, file, metaHandle, indexHandle, filter, index, lists, handles, made := BuildTable(entries, blockSize, interval, hasFilter, filterKey, create, crc);
    r := None;
    if !built {
      return;
    }
    var t := Open(file, usesFilter, filterKey, may, metaHandle, indexHandle, filter, index, lists, handles, made, create);
    r := t.value.InternalGet(k, index, lists, handles, made, create);
  }

  /** Table::NewIterator, as a two-level iterator. */
  method NewIterator(t: Table, ghost index: seq<Pair>, ghost lists: seq<seq<Pair>>, ghost handles: seq<Handle>)
    returns (it: TwoLevelIterator)
    requires TableOk(t.file, t.indexHandle, index, lists, handles)
    ensures fresh(it) && fresh(it.indexIter) && it.Valid() && it.dataIter == null && it.lists == lists
  {
    hide TableOk, Iter.Valid, BlockStands;
    IndexStands(t.file, t.indexHandle, index, lists, handles);
    var ok, indexIter := NewBlockIter(t.file, t.indexHandle, index);
    it := new TwoLevelIterator(t.file, indexIter, t.indexHandle, lists, handles);
  }

  lemma IndexStands(file: Bytes, indexHandle: Handle, index: seq<Pair>, lists: seq<seq<Pair>>, handles: seq<Handle>)
    requires TableOk(file, indexHandle, index, lists, handles)
    ensures BlockStands(file, indexHandle, index)
  {
    hide BlockStands, ListsOk, Indexed, AllStand;
  }

  /** Walking over a table, forward and backward, yields exactly the entries it was built from, in order. */
  method BuildAndWalk(entries: seq<Pair>, blockSize: nat, interval: nat, hasFilter: bool, filterKey: Bytes, create: seq<Bytes> -> Bytes, crc: Bytes -> Word)
    returns (built: bool, forward: seq<Pair>, backward: seq<Pair>)
    requires interval >= 1 && blockSize <= MAX_SIZE && |filterKey| < MAX_SIZE && Addable(entries)
    ensures Weight(entries) <= MAX_WEIGHT && (hasFilter ==> Modest(create)) ==> built
    ensures built ==> forward == entries && |backward| == |entries|
    ensures built ==> forall i :: 0 <= i < |entries| ==> backward[i] == entries[|entries| - 1 - i]
  {
    hide Addable, TableOk, FilterCovers, TB.FilterStands, Flat, InternalLess, Modest, Weight, TwoLevelIterator.Valid, TwoLevelIterator.DataValid,
         FooterStands, BlockStands, MetaEntries;
    ghost var metaHandle, indexHandle, index, lists, handles, made;
    var file, filter;
    built, file, metaHandle, indexHandle, filter, index, lists, handles, made := BuildTable(entries, blockSize, interval, hasFilter, filterKey, create, crc);
    forward, backward := [], [];
    if !built {
      return;
    }
    var t := Open(file, false, filterKey, (_, _) => true, metaHandle, indexHandle, filter, index, lists, handles, made, create);
    var it := NewIterator(t.value, index, lists, handles);
    forward := WalkForward(it);
    backward := WalkBackward(it);
  }

  method WalkForward(it: TwoLevelIterator) returns (r: seq<Pair>)
    requires it.Valid()
    modifies it`dataIter, it`dataBlockHandle, it`blk, it.indexIter, it.dataIter
    ensures it.Valid() && (it.dataIter == null || it.dataIter == old(it.dataIter) || fresh(it.dataIter))
    ensures r == Flat(it.lists)
  {
    hide Flat, TwoLevelIterator.Sound, Iter.Valid, Iter.Sound;
    it.SeekToFirst();
    r := [];
    AtEnd(it);
    while it.IsValid()
      invariant it.Valid() && (it.dataIter == null || it.dataIter == old(it.dataIter) || fresh(it.dataIter))
      invariant it.Position() <= |Flat(it.lists)| && r == Flat(it.lists)[..it.Position()]
      invariant !it.IsValid() ==> it.Position() == |Flat(it.lists)|
      decreases |Flat(it.lists)| - it.Position()
    {
      it.OnEntry();
      ghost var all, p := Flat(it.lists), it.Position();
      r := r + [Pair(it.dataIter.key, Slice(it.dataIter.data, it.dataIter.valueAt, it.dataIter.valueLength))];
      assert all[..p + 1] == all[..p] + [all[p]];
      it.Next();
      AtEnd(it);
    }
  }

  method WalkBackward(it: TwoLevelIterator) returns (r: seq<Pair>)
    requires it.Valid()
    modifies it`dataIter, it`dataBlockHandle, it`blk, it.indexIter, it.dataIter
    ensures it.Valid() && (it.dataIter == null || it.dataIter == old(it.dataIter) || fresh(it.dataIter))
    ensures |r| == |Flat(it.lists)| && forall i :: 0 <= i < |r| ==> r[i] == Flat(it.lists)[|r| - 1 - i]
  {
    hide Flat, TwoLevelIterator.Sound, Iter.Valid, Iter.Sound;
    it.SeekToLast();
    r := [];
    AtEnd(it);
    ghost var all := Flat(it.lists);
    while it.IsValid()
      invariant it.Valid() && (it.dataIter == null || it.dataIter == old(it.dataIter) || fresh(it.dataIter))
      invariant if it.IsValid() then it.Position() < |all| && |r| == |all| - 1 - it.Position() else |r| == |all|
      invariant forall i :: 0 <= i < |r| ==> r[i] == all[|all| - 1 - i]
      decreases if it.IsValid() then it.Position() + 1 else 0
    {
      it.OnEntry();
      r := r + [Pair(it.dataIter.key, Slice(it.dataIter.data, it.dataIter.valueAt, it.dataIter.valueLength))];
      it.Prev();
      AtEnd(it);
    }
  }

  lemma AtEnd(it: TwoLevelIterator)
    requires it.Valid()
    ensures it.IsValid() ==> it.Position() < |Flat(it.lists)|
    ensures !it.IsValid() ==> it.Position() == |Flat(it.lists)|
  {
    hide Flat, TwoLevelIterator.Sound, Iter.Valid, Iter.Sound;
    if it.IsValid() { it.OnEntry(); }
  }
}
