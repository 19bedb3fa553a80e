/** Building a table: data blocks as they fill up, each index entry delayed until the next block's first key is known. */
module TableBuilder {
  import opened Keys
  import opened Coding
  import opened BlockFormat
  import opened Blocks
  import opened BlockIters
  import opened Separators
  import opened TableFormat
  import opened FilterBlocks

  const MAX_FILE: nat := 0x8000_0000_0000_0000

  // ------------------------------------------------------------ lists of blocks

  /** The blocks written, and the one being filled. */
  function With(flushed: seq<seq<Pair>>, es: seq<Pair>): seq<seq<Pair>> {
    if es == [] then flushed else flushed + [es]
  }

  /** The index has an entry for every block but the last. */
  ghost predicate IndexedSoFar(index: seq<Pair>, lists: seq<seq<Pair>>, handles: seq<Handle>) {
    |index| <= |handles| && (index != [] ==> |index| < |lists|) && Indexed(index, lists, handles, |index|)
  }

  lemma FlatWith(flushed: seq<seq<Pair>>, es: seq<Pair>)
    ensures Flat(flushed + [es]) == Flat(flushed) + es && Flat(With(flushed, es)) == Flat(flushed) + es
  {
    assert (flushed + [es])[..|flushed|] == flushed;
  }

  /** One more entry, after all others. */
  lemma OneMoreEntry(flushed: seq<seq<Pair>>, es: seq<Pair>, p: Pair)
    requires ListsOk(With(flushed, es)) && LongEnough(p.key)
    requires var all := Flat(With(flushed, es)); all != [] ==> InternalLess(Last(all), p.key)
    ensures ListsOk(flushed + [es + [p]]) && Flat(flushed + [es + [p]]) == Flat(With(flushed, es)) + [p]
  {
    hide Flat, InternalLess, LongEnough;
    FlatWith(flushed, es);
    FlatWith(flushed, es + [p]);
    var all, more := Flat(With(flushed, es)), Flat(flushed + [es + [p]]);
    assert more == all + [p];
    forall i, j | 0 <= i < j < |more| ensures InternalLess(more[i].key, more[j].key) {
      if j == |all| && i < |all| - 1 { InternalTransitive(more[i].key, all[|all| - 1].key, p.key); }
    }
    forall x | x in more ensures LongEnough(x.key) { if x in all { } else { assert x == p; } }
    forall b | 0 <= b < |flushed| ensures flushed[b] != [] { assert With(flushed, es)[b] == flushed[b]; }
  }

  lemma LastOfAll(flushed: seq<seq<Pair>>, es: seq<Pair>)
    requires ListsOk(With(flushed, es))
    ensures es != [] ==> Last(Flat(With(flushed, es))) == Last(es)
    ensures es == [] && flushed != [] ==> Last(Flat(With(flushed, es))) == Last(flushed[|flushed| - 1])
    ensures Flat(With(flushed, es)) == [] <==> es == [] && flushed == []
  {
    hide InternalLess, LongEnough, Ascending;
    FlatWith(flushed, es);
    if es == [] && flushed != [] {
      var n := |flushed| - 1;
      assert flushed == flushed[..n] + [flushed[n]] && flushed[n] != [];
    }
  }

  /** Adding to the block being filled changes no neighbours of index keys. */
  lemma IndexStays(index: seq<Pair>, flushed: seq<seq<Pair>>, handles: seq<Handle>, es: seq<Pair>, p: Pair)
    requires IndexedSoFar(index, flushed + [es], handles) && es != []
    ensures IndexedSoFar(index, flushed + [es + [p]], handles)
  {
    hide Separates;
    var before, after := flushed + [es], flushed + [es + [p]];
    forall b | 0 <= b < |index| ensures KeyFits(index[b].key, after, b) {
      assert KeyFits(index[b].key, before, b);
      assert First(after[b + 1]) == First(before[b + 1]);
    }
  }

  /** The delayed index entry, now that the next block has begun. */
  lemma IndexGrows(index: seq<Pair>, flushed: seq<seq<Pair>>, handles: seq<Handle>, r: Bytes, p: Pair)
    requires IndexedSoFar(index, flushed, handles) && |handles| == |flushed| == |index| + 1
    requires Separates(r, Last(flushed[|index|]), p.key)
    ensures IndexedSoFar(index + [Pair(r, HandleBytes(handles[|index|]))], flushed + [[p]], handles)
  {
    hide Separates, HandleBytes;
    var more, after := index + [Pair(r, HandleBytes(handles[|index|]))], flushed + [[p]];
    forall b | 0 <= b < |more| ensures KeyFits(more[b].key, after, b) && more[b].value == HandleBytes(handles[b]) {
      if b < |index| {
        assert KeyFits(index[b].key, flushed, b);
        assert more[b] == index[b];
      } else {
        assert First(after[b + 1]) == p.key;
      }
    }
  }

  /** The entry for the last block. */
  lemma IndexFinished(index: seq<Pair>, flushed: seq<seq<Pair>>, handles: seq<Handle>, r: Bytes)
    requires IndexedSoFar(index, flushed, handles) && |handles| == |flushed| == |index| + 1
    requires FitsLast(r, flushed[|index|])
    ensures Indexed(index + [Pair(r, HandleBytes(handles[|index|]))], flushed, handles, |flushed|)
  {
    hide Separates, HandleBytes;
    var more := index + [Pair(r, HandleBytes(handles[|index|]))];
    forall b | 0 <= b < |more| ensures KeyFits(more[b].key, flushed, b) && more[b].value == HandleBytes(handles[b]) {
      if b < |index| {
        assert KeyFits(index[b].key, flushed, b);
        assert more[b] == index[b];
      }
    }
  }

  // ------------------------------------------------------------ the file

  lemma StillStands(file: Bytes, more: Bytes, h: Handle, es: seq<Pair>)
    requires BlockStands(file, h, es)
    ensures BlockStands(file + more, h, es)
  {
    hide HasEntries;
    assert (file + more)[h.offset..h.offset + h.size] == file[h.offset..h.offset + h.size];
  }

  lemma AllStillStand(file: Bytes, more: Bytes, lists: seq<seq<Pair>>, handles: seq<Handle>)
    requires AllStand(file, lists, handles)
    ensures AllStand(file + more, lists, handles)
  {
    hide BlockStands;
    forall b | 0 <= b < |lists| ensures BlockStands(file + more, handles[b], lists[b]) { StillStands(file, more, handles[b], lists[b]); }
  }

  /** A block with its trailer. */
  function RawBlock(raw: Bytes, crc: Bytes -> Word): Bytes {
    raw + [0] + EncodeFixed32(crc(raw + [0]))
  }

  lemma RawStands(file: Bytes, raw: Bytes, crc: Bytes -> Word, es: seq<Pair>)
    ensures var f, h := file + RawBlock(raw, crc), Handle(|file|, |raw|);
      f[h.offset..h.offset + h.size] == raw && |f| == |file| + |raw| + BLOCK_TRAILER_SIZE && (HasEntries(raw, es) ==> BlockStands(f, h, es))
  {
    hide HasEntries, EncodeFixed32;
    var f := file + RawBlock(raw, crc);
    assert f[|file|..|file| + |raw|] == raw;
  }

  lemma TrailerBegins(raw: Bytes, crc: Bytes -> Word)
    ensures |RawBlock(raw, crc)| == |raw| + BLOCK_TRAILER_SIZE && RawBlock(raw, crc)[|raw|] == 0
  {
  }

  /** There are no more restart points than entries, and no more of those than a third of the bytes. */
  lemma FewRestarts(es: seq<Pair>, starts: seq<nat>)
    requires StartsOk(es, starts)
    ensures |starts| <= |es| + 1 && 3 * |es| <= |Body(es, starts)|
  {
    hide Body;
    assert es[..|es|] == es;
    OffsetsGrow(es, starts, 0, |es|);
    var j := 0;
    while j < |starts|
      invariant j <= |starts| && forall i :: 0 <= i < j ==> starts[i] >= i
    {
      assert j > 0 ==> starts[j - 1] < starts[j];
      j := j + 1;
    }
    assert starts[|starts| - 1] >= |starts| - 1;
  }

  // ------------------------------------------------------------ the filter

  /** Every key was added for the block its entry is in. */
  ghost predicate Marked(added: set<Mark>, lists: seq<seq<Pair>>, handles: seq<Handle>) {
    |lists| == |handles| && forall b, x :: 0 <= b < |lists| && x in lists[b] ==> Mark(handles[b].offset, x.key) in added
  }

  ghost predicate MarkedHere(added: set<Mark>, es: seq<Pair>, offset: nat) {
    forall x :: x in es ==> Mark(offset, x.key) in added
  }

  // ------------------------------------------------------------ one step of building

  /** How the fields of a builder hang together. */
  ghost predicate Consistent(file: Bytes, flushed: seq<seq<Pair>>, handles: seq<Handle>, es: seq<Pair>, index: seq<Pair>, pending: bool,
                             pendingHandle: Handle, lastKey: Bytes, numEntries: nat) {
    AllStand(file, flushed, handles) && ListsOk(With(flushed, es)) && IndexedSoFar(index, With(flushed, es), handles) &&
    numEntries == |Flat(With(flushed, es))| && (numEntries > 0 ==> lastKey == Last(Flat(With(flushed, es)))) &&
    if pending then es == [] && |flushed| == |index| + 1 && pendingHandle == handles[|index|]
    else |index| == |flushed| && (es == [] ==> flushed == [])
  }

  /** Adding p, with the delayed index entry if there is one. */
  lemma AddStep(file: Bytes, flushed: seq<seq<Pair>>, handles: seq<Handle>, es: seq<Pair>, index: seq<Pair>, pending: bool,
                pendingHandle: Handle, lastKey: Bytes, numEntries: nat, r: Bytes, p: Pair)
    requires Consistent(file, flushed, handles, es, index, pending, pendingHandle, lastKey, numEntries)
    requires LongEnough(p.key) && (numEntries > 0 ==> InternalLess(lastKey, p.key)) && Separates(r, lastKey, p.key)
    ensures var more := if pending then index + [Pair(r, HandleBytes(pendingHandle))] else index;
      Consistent(file, flushed, handles, es + [p], more, false, pendingHandle, p.key, numEntries + 1)
    ensures Flat(With(flushed, es + [p])) == Flat(With(flushed, es)) + [p]
  {
    hide Flat, InternalLess, LongEnough, BlockStands, Separates, HandleBytes, Indexed, ListsOk;
    OneMoreEntry(flushed, es, p);
    LastOfAll(flushed, es);
    LastOfAll(flushed, es + [p]);
    assert With(flushed, es + [p]) == flushed + [es + [p]];
    if pending {
      assert [] + [p] == [p];
      IndexGrows(index, flushed, handles, r, p);
    } else if es != [] {
      IndexStays(index, flushed, handles, es, p);
    } else {
      NoIndex(index, flushed + [es + [p]], handles);
    }
  }

  lemma LastIsLong(lists: seq<seq<Pair>>)
    requires ListsOk(lists) && Flat(lists) != []
    ensures LongEnough(Last(Flat(lists)))
  {
    hide Flat, Ascending, LongEnough;
    assert Flat(lists)[|Flat(lists)| - 1] in Flat(lists);
  }

  lemma NoIndex(index: seq<Pair>, lists: seq<seq<Pair>>, handles: seq<Handle>)
    requires index == []
    ensures IndexedSoFar(index, lists, handles)
  {
  }

  /** Writing the block being filled. */
  lemma FlushStep(file: Bytes, flushed: seq<seq<Pair>>, handles: seq<Handle>, es: seq<Pair>, index: seq<Pair>, pendingHandle: Handle,
                  lastKey: Bytes, numEntries: nat, raw: Bytes, crc: Bytes -> Word)
    requires Consistent(file, flushed, handles, es, index, false, pendingHandle, lastKey, numEntries) && es != [] && HasEntries(raw, es)
    ensures var h := Handle(|file|, |raw|);
      Consistent(file + RawBlock(raw, crc), flushed + [es], handles + [h], [], index, true, h, lastKey, numEntries)
  {
    hide Flat, InternalLess, Separates, HandleBytes, Indexed, ListsOk, BlockStands, HasEntries, RawBlock;
    var h := Handle(|file|, |raw|);
    RawStands(file, raw, crc, es);
    AllStillStand(file, RawBlock(raw, crc), flushed, handles);
    forall b | 0 <= b < |flushed| ensures handles[b].offset < |file| { HandleInFile(file, flushed, handles, handles[b]); }
    MoreHandles(index, flushed + [es], handles, h);
  }

  lemma MoreHandles(index: seq<Pair>, lists: seq<seq<Pair>>, handles: seq<Handle>, h: Handle)
    requires IndexedSoFar(index, lists, handles)
    ensures IndexedSoFar(index, lists, handles + [h])
  {
    hide KeyFits, HandleBytes;
  }

  /** The filter knows every key, and stands at the block being filled. */
  ghost predicate FilterKnows(added: set<Mark>, block: nat, flushed: seq<seq<Pair>>, handles: seq<Handle>, es: seq<Pair>, offset: nat) {
    block == offset && Marked(added, flushed, handles) && MarkedHere(added, es, offset)
  }

  lemma FilterFlushed(added: set<Mark>, block: nat, flushed: seq<seq<Pair>>, handles: seq<Handle>, es: seq<Pair>, offset: nat, h: Handle, after: nat)
    requires FilterKnows(added, block, flushed, handles, es, offset) && h.offset == offset
    ensures FilterKnows(added, after, flushed + [es], handles + [h], [], after)
  {
  }

  lemma FilterAdded(added: set<Mark>, block: nat, flushed: seq<seq<Pair>>, handles: seq<Handle>, es: seq<Pair>, offset: nat, p: Pair)
    requires FilterKnows(added, block, flushed, handles, es, offset)
    ensures FilterKnows(added + {Mark(block, p.key)}, block, flushed, handles, es + [p], offset)
  {
  }

  class TableBuilder {
    const blockSize: nat
    const interval: nat
    const hasFilter: bool
    /** "filter." and the name of the filter policy. */
    const filterKey: Bytes
    const create: seq<Bytes> -> Bytes
    const crc: Bytes -> Word
    var file: Bytes
    var offset: nat
    var dataBlock: BlockBuilder
    var indexBlock: BlockBuilder
    var filterBlock: FilterBuilder
    var lastKey: Bytes
    var numEntries: nat
    var closed: bool
    var pendingIndexEntry: bool
    var pendingHandle: Handle
    /** The entries of the blocks written, and where those are. */
    ghost var flushed: seq<seq<Pair>>
    ghost var handles: seq<Handle>

    ghost predicate Valid()
      reads this, dataBlock, indexBlock, filterBlock
    {
      dataBlock != indexBlock && dataBlock.Valid() && indexBlock.Valid() && filterBlock.Valid() && offset == |file| &&
      Consistent(file, flushed, handles, dataBlock.entries, indexBlock.entries, pendingIndexEntry, pendingHandle, lastKey, numEntries) &&
      filterBlock.create == create && interval >= 1 && blockSize <= MAX_SIZE && |lastKey| < MAX_SIZE && |filterKey| < MAX_SIZE &&
      (hasFilter ==> FilterKnows(filterBlock.added, filterBlock.block, flushed, handles, dataBlock.entries, offset))
    }

    /** The block being filled has not reached its size. */
    ghost predicate Filling()
      reads this, dataBlock
    {
      dataBlock.entries == [] || dataBlock.CurrentSizeEstimate() < blockSize
    }

    /** Offsets of the index block and of the file do not overflow. */
    ghost predicate Room()
      reads this, indexBlock
    {
      |file| < MAX_FILE && |indexBlock.buffer| < MAX_SIZE
    }

    /** What has been added. */
    ghost function Entries(): seq<Pair>
      reads this, dataBlock
    {
      Flat(With(flushed, dataBlock.entries))
    }

    /** How large the file is, with the block being filled but for its end. */
    ghost function FileSize(): nat
      reads this, dataBlock
    {
      |file| + |dataBlock.buffer| + 4 * |dataBlock.restarts|
    }

    /** How large the index gets, with an entry for the block being filled. */
    ghost function IndexSize(): nat
      reads this, dataBlock, indexBlock
    {
      |indexBlock.buffer| + if pendingIndexEntry || dataBlock.buffer != [] then |lastKey| + 35 else 0
    }

    constructor (blockSize: nat, interval: nat, hasFilter: bool, filterKey: Bytes, create: seq<Bytes> -> Bytes, crc: Bytes -> Word)
      requires interval >= 1 && blockSize <= MAX_SIZE && |filterKey| < MAX_SIZE
      ensures Valid() && Filling() && !closed && Entries() == [] && fresh(dataBlock) && fresh(indexBlock) && fresh(filterBlock)
      ensures this.hasFilter == hasFilter && this.create == create && this.filterKey == filterKey
      ensures FileSize() == 4 && IndexSize() == 0 && filterBlock.Total() == 0
    {
      hide Flat, Consistent, BlockBuilder.Valid, FilterBuilder.Valid, With;
      NothingYet(create);
      this.blockSize, this.interval, this.hasFilter, this.filterKey, this.create, this.crc := blockSize, interval, hasFilter, filterKey, create, crc;
      file, offset := [], 0;
      dataBlock := new BlockBuilder(interval);
      indexBlock := new BlockBuilder(1);
      filterBlock := new FilterBuilder(create);
      lastKey, numEntries, closed, pendingIndexEntry, pendingHandle := [], 0, false, false, Handle(0, 0);
      flushed, handles := [], [];
      new;
      if hasFilter {
        filterBlock.StartBlock(0);
      }
    }

    /** WriteRawBlock. */
    method WriteRawBlock(raw: Bytes) returns (h: Handle)
      requires offset == |file|
      modifies this`file, this`offset
      ensures file == old(file) + RawBlock(raw, crc) && offset == |file| && h == Handle(|old(file)|, |raw|)
    {
      hide EncodeFixed32;
      h := Handle(offset, |raw|);
      file := file + raw;
      file := file + ([0] + EncodeFixed32(crc(raw + [0])));
      offset := offset + |raw| + BLOCK_TRAILER_SIZE;
      assert file == old(file) + RawBlock(raw, crc);
    }

    /** WriteBlock of the data block, which is then empty again. */
    method WriteDataBlock() returns (ghost raw: Bytes)
      requires dataBlock.Valid() && offset == |file| && |dataBlock.restarts| < MAX_SIZE && interval >= 1
      modifies this`file, this`offset, this`pendingHandle, this`dataBlock
      ensures file == old(file) + RawBlock(raw, crc) && offset == |file| && pendingHandle == Handle(|old(file)|, |raw|)
      ensures |raw| == old(dataBlock.CurrentSizeEstimate()) && HasEntries(raw, old(dataBlock.entries))
      ensures fresh(dataBlock) && dataBlock.Valid() && dataBlock.entries == []
      ensures dataBlock.buffer == [] && |dataBlock.restarts| == 1 && |file| == |old(file)| + |raw| + BLOCK_TRAILER_SIZE
    {
      hide RawBlock, IsBlock, HasEntries, BlockBuilder.Valid;
      var r := dataBlock.Finish();
      BlockEntries(r, dataBlock.entries, dataBlock.starts);
      SizeOfBlock(dataBlock, r);
      TrailerBegins(r, crc);
      pendingHandle := WriteRawBlock(r);
      dataBlock := new BlockBuilder(interval);
      raw := r;
    }

    /** The block being filled goes to the file, and waits for its index entry. */
    method WriteFull(ghost es: seq<Pair>)
      requires dataBlock.Valid() && dataBlock.entries == es != [] && offset == |file| && |dataBlock.restarts| < MAX_SIZE && interval >= 1
      requires Consistent(file, flushed, handles, es, indexBlock.entries, pendingIndexEntry, pendingHandle, lastKey, numEntries)
      modifies this`file, this`offset, this`pendingHandle, this`dataBlock, this`pendingIndexEntry, this`flushed, this`handles
      ensures Consistent(file, flushed, handles, [], indexBlock.entries, true, pendingHandle, lastKey, numEntries)
      ensures pendingIndexEntry && offset == |file| && fresh(dataBlock) && dataBlock.Valid() && dataBlock.entries == [] && dataBlock.buffer == []
      ensures |dataBlock.restarts| == 1 && |file| == |old(file)| + old(dataBlock.CurrentSizeEstimate()) + BLOCK_TRAILER_SIZE
      ensures flushed == old(flushed) + [es] && handles == old(handles) + [pendingHandle] && pendingHandle.offset == |old(file)|
      ensures Flat(With(flushed, [])) == Flat(With(old(flushed), es))
    {
      hide Flat, With, RawBlock, Consistent, HasEntries, BlockBuilder.Valid;
      ghost var index, before, handle := indexBlock.entries, file, pendingHandle;
      NotPending(file, flushed, handles, es, index, pendingIndexEntry, pendingHandle, lastKey, numEntries);
      ghost var raw := WriteDataBlock();
      RawStands(before, raw, crc, es);
      FlushStep(before, flushed, handles, es, index, handle, lastKey, numEntries, raw, crc);
      SameFlat(flushed, es);
      pendingIndexEntry := true;
      flushed, handles := flushed + [es], handles + [pendingHandle];
    }

    method Flush()
      requires Valid() && !closed && |dataBlock.restarts| < MAX_SIZE
      modifies this, filterBlock
      ensures Valid() && Filling() && !closed && Entries() == old(Entries())
      ensures (dataBlock == old(dataBlock) || fresh(dataBlock)) && indexBlock == old(indexBlock) && filterBlock == old(filterBlock)
      ensures dataBlock.entries == [] && numEntries == old(numEntries) && indexBlock.entries == old(indexBlock.entries)
      ensures lastKey == old(lastKey) && |file| <= |old(file)| + old(dataBlock.CurrentSizeEstimate()) + BLOCK_TRAILER_SIZE
      ensures FileSize() <= old(FileSize()) + 13 && IndexSize() <= old(IndexSize()) && filterBlock.Total() == old(filterBlock.Total())
      ensures dataBlock.buffer == []
    {
      hide Flat, With, RawBlock, Consistent, FilterKnows, HasEntries, BlockBuilder.Valid, FilterBuilder.Valid;
      EmptyWhenNothing(dataBlock);
      if dataBlock.buffer == [] {
        return;
      }
      ghost var es := dataBlock.entries;
      WriteFull(es);
      if hasFilter {
        StartFilterBlock(old(flushed), old(handles), es, pendingHandle);
      }
    }

    method StartFilterBlock(ghost lists: seq<seq<Pair>>, ghost places: seq<Handle>, ghost es: seq<Pair>, ghost h: Handle)
      requires filterBlock.Valid() && FilterKnows(filterBlock.added, filterBlock.block, lists, places, es, h.offset) && h.offset <= offset
      modifies filterBlock
      ensures filterBlock.Valid() && FilterKnows(filterBlock.added, filterBlock.block, lists + [es], places + [h], [], offset)
      ensures filterBlock.Total() == old(filterBlock.Total())
    {
      FilterFlushed(filterBlock.added, filterBlock.block, lists, places, es, h.offset, h, offset);
      filterBlock.StartBlock(offset);
    }

    /** The index entry of the block before key, which separates the two. */
    method DelayedIndexEntry(key: Bytes) returns (ghost r: Bytes)
      requires indexBlock.Valid() && |indexBlock.buffer| < MAX_SIZE && LongEnough(lastKey) && LongEnough(key) && |lastKey| < MAX_SIZE
      requires pendingHandle.offset + pendingHandle.size < TWO_64
      modifies this`lastKey, this`pendingIndexEntry, indexBlock
      ensures !pendingIndexEntry && indexBlock.Valid() && Separates(r, old(lastKey), key)
      ensures |indexBlock.buffer| <= old(|indexBlock.buffer|) + old(|lastKey|) + 35
      ensures indexBlock.entries == old(indexBlock.entries) + [Pair(r, HandleBytes(pendingHandle))]
    {
      hide HandleBytes, Separates, BlockBuilder.Valid;
      lastKey := InternalSeparator(lastKey, key);
      r := lastKey;
      ShortHandle(pendingHandle);
      var handleEncoding := EncodeHandle(pendingHandle);
      indexBlock.Add(lastKey, handleEncoding);
      pendingIndexEntry := false;
    }

    /** The key goes to the filter, and the entry to the block being filled. */
    method AddEntry(key: Bytes, value: Bytes)
      requires dataBlock.Valid() && filterBlock.Valid() && |dataBlock.buffer| < MAX_SIZE && |key| < MAX_SIZE && |value| < MAX_SIZE
      requires hasFilter ==> FilterKnows(filterBlock.added, filterBlock.block, flushed, handles, dataBlock.entries, offset)
      modifies this`lastKey, this`numEntries, dataBlock, filterBlock
      ensures dataBlock.Valid() && filterBlock.Valid() && dataBlock.entries == old(dataBlock.entries) + [Pair(key, value)]
      ensures hasFilter ==> FilterKnows(filterBlock.added, filterBlock.block, flushed, handles, dataBlock.entries, offset)
      ensures lastKey == key && numEntries == old(numEntries) + 1
      ensures FileSize() <= old(FileSize()) + |key| + |value| + 19 && (hasFilter ==> filterBlock.Total() == old(filterBlock.Total()) + 1)
    {
      hide BlockBuilder.Valid, FilterBuilder.Valid, FilterKnows;
      if hasFilter {
        FilterAdded(filterBlock.added, filterBlock.block, flushed, handles, dataBlock.entries, offset, Pair(key, value));
        filterBlock.AddKey(key);
      }
      lastKey := key;
      numEntries := numEntries + 1;
      dataBlock.Add(key, value);
    }

    method Add(key: Bytes, value: Bytes)
      requires Valid() && Filling() && !closed && Room() && LongEnough(key) && |key| < MAX_SIZE && |value| < MAX_SIZE
      requires numEntries > 0 ==> InternalLess(lastKey, key)
      modifies this, dataBlock, indexBlock, filterBlock
      ensures Valid() && Filling() && !closed && Entries() == old(Entries()) + [Pair(key, value)] && lastKey == key
      ensures FileSize() <= old(FileSize()) + |key| + |value| + 32 && IndexSize() <= old(IndexSize()) + |key| + 35
      ensures hasFilter ==> filterBlock.Total() == old(filterBlock.Total()) + 1
      ensures (dataBlock == old(dataBlock) || fresh(dataBlock)) && indexBlock == old(indexBlock) && filterBlock == old(filterBlock)
    {
      hide Flat, With, Consistent, FilterKnows, HandleBytes, InternalLess, Separates, BlockBuilder.Valid, FilterBuilder.Valid;
      ghost var p, es, index, pending, last, n := Pair(key, value), dataBlock.entries, indexBlock.entries, pendingIndexEntry, lastKey, numEntries;
      ghost var r := lastKey;
      SeparatesItself(lastKey, key);
      if pendingIndexEntry {
        PendingKey(file, flushed, handles, es, index, pendingHandle, lastKey, n);
        r := DelayedIndexEntry(key);
      }
      AddStep(file, flushed, handles, es, index, pending, pendingHandle, last, n, r, p);
      EmptyWhenNothing(dataBlock);
      AddEntry(key, value);
      EmptyWhenNothing(dataBlock);
      if dataBlock.CurrentSizeEstimate() >= blockSize {
        Flush();
      }
    }

    /** The index entry of the last block. */
    method LastIndexEntry() returns (ghost r: Bytes)
      requires indexBlock.Valid() && |indexBlock.buffer| < MAX_SIZE && LongEnough(lastKey) && |lastKey| < MAX_SIZE
      requires pendingHandle.offset + pendingHandle.size < TWO_64
      modifies this`lastKey, this`pendingIndexEntry, indexBlock
      ensures |indexBlock.buffer| <= old(|indexBlock.buffer|) + old(|lastKey|) + 35
      ensures !pendingIndexEntry && indexBlock.Valid() && (r == old(lastKey) || (LongEnough(r) && BytesLess(UserOf(old(lastKey)), UserOf(r))))
      ensures indexBlock.entries == old(indexBlock.entries) + [Pair(r, HandleBytes(pendingHandle))]
    {
      hide HandleBytes, BytesLess, UserOf, BlockBuilder.Valid;
      lastKey := InternalSuccessor(lastKey);
      r := lastKey;
      ShortHandle(pendingHandle);
      var handleEncoding := EncodeHandle(pendingHandle);
      indexBlock.Add(lastKey, handleEncoding);
      pendingIndexEntry := false;
    }

    /** WriteBlock of the index block. */
    method WriteIndexBlock() returns (h: Handle)
      requires indexBlock.Valid() && offset == |file| && |indexBlock.restarts| < MAX_SIZE
      modifies this`file, this`offset
      ensures old(file) <= file && offset == |file| && BlockStands(file, h, indexBlock.entries)
      ensures |file| == |old(file)| + indexBlock.CurrentSizeEstimate() + BLOCK_TRAILER_SIZE
    {
      hide RawBlock, IsBlock, HasEntries, BlockBuilder.Valid;
      var raw := indexBlock.Finish();
      BlockEntries(raw, indexBlock.entries, indexBlock.starts);
      SizeOfBlock(indexBlock, raw);
      RawStands(file, raw, crc, indexBlock.entries);
      h := WriteRawBlock(raw);
    }

    /** The filter block, of all keys added. */
    method WriteFilterBlock() returns (h: Handle, ghost made: seq<seq<Bytes>>)
      requires filterBlock.Valid() && filterBlock.create == create && Marked(filterBlock.added, flushed, handles) && offset == |file|
      requires filterBlock.block == offset
      modifies this`file, this`offset, filterBlock
      ensures old(file) <= file && offset == |file| && FilterStands(file, h, made, create) && FilterCovers(flushed, handles, made)
      ensures |file| == |old(file)| + h.size + BLOCK_TRAILER_SIZE
      ensures Modest(create) ==> h.size <= 64 * old(filterBlock.Total()) + 4 * (|old(file)| / FILTER_BASE) + 9
    {
      hide RawBlock, IsFilterBlock, FilterBuilder.Valid, Modest, Filters, KeyCount;
      var raw := filterBlock.Finish();
      made := filterBlock.made;
      if Modest(create) { ModestFilters(made, create); }
      RawStands(file, raw, crc, []);
      TrailerBegins(raw, crc);
      h := WriteRawBlock(raw);
      MarkedCovers(filterBlock.added, flushed, handles, made);
    }

    /** The last index entry, and the index block. */
    method FinishIndex() returns (indexHandle: Handle, ghost index: seq<Pair>)
      requires indexBlock.Valid() && |indexBlock.buffer| < MAX_SIZE && offset == |file| && |lastKey| < MAX_SIZE
      requires AllStand(file, flushed, handles) && IndexedSoFar(indexBlock.entries, flushed, handles)
      requires if pendingIndexEntry then
          |flushed| == |indexBlock.entries| + 1 && pendingHandle == handles[|indexBlock.entries|] &&
          lastKey == Last(flushed[|indexBlock.entries|])
        else flushed == [] && indexBlock.entries == []
      requires pendingIndexEntry ==> LongEnough(lastKey) && pendingHandle.offset + pendingHandle.size < TWO_64
      modifies this`file, this`offset, this`lastKey, this`pendingIndexEntry, indexBlock
      ensures old(file) <= file && offset == |file| && BlockStands(file, indexHandle, index)
      ensures |index| == |flushed| == |handles| && Indexed(index, flushed, handles, |flushed|)
      ensures |file| <= |old(file)| + 3 * (old(|indexBlock.buffer|) + if old(pendingIndexEntry) then old(|lastKey|) + 35 else 0) + 13
    {
      hide Flat, RawBlock, HasEntries, BlockBuilder.Valid, BlockStands, AllStand, IndexedSoFar, Indexed, HandleBytes;
      ghost var r, ies, pending := lastKey, indexBlock.entries, pendingIndexEntry;
      EmptyWhenNothing(indexBlock);
      if pendingIndexEntry {
        r := LastIndexEntry();
      }
      FinishedIndex(file, flushed, handles, ies, pending, pendingHandle, old(lastKey), r);
      EmptyWhenNothing(indexBlock);
      index := indexBlock.entries;
      indexHandle := WriteIndexBlock();
    }

    /** The metaindex block, with the handle of the filter block if there is one. */
    method WriteMetaIndex(filter: Option<Handle>) returns (h: Handle)
      requires offset == |file| && interval >= 1 && |filterKey| < MAX_SIZE && (filter.Some? ==> HandleOk(filter.value))
      modifies this`file, this`offset
      ensures old(file) <= file && offset == |file| && BlockStands(file, h, MetaEntries(filterKey, filter)) && h.offset + h.size < |file|
      ensures |file| <= |old(file)| + |filterKey| + 60
    {
      hide RawBlock, IsBlock, HasEntries, BlockBuilder.Valid, HandleBytes;
      var meta := new BlockBuilder(interval);
      if filter.Some? {
        ShortHandle(filter.value);
        var handleEncoding := EncodeHandle(filter.value);
        meta.Add(filterKey, handleEncoding);
      }
      var raw := meta.Finish();
      assert meta.entries == MetaEntries(filterKey, filter);
      BlockEntries(raw, meta.entries, meta.starts);
      SizeOfBlock(meta, raw);
      RawStands(file, raw, crc, meta.entries);
      h := WriteRawBlock(raw);
    }

    /** Footer::EncodeTo. */
    method WriteFooter(meta: Handle, index: Handle)
      requires offset == |file| && HandleOk(meta) && HandleOk(index)
      modifies this`file, this`offset
      ensures old(file) <= file && |file| == |old(file)| + FOOTER_SIZE && FooterStands(file, meta, index)
    {
      hide HandleBytes, Fixed64Bytes;
      ShortHandle(meta);
      ShortHandle(index);
      var a := EncodeHandle(meta);
      var b := EncodeHandle(index);
      var footer := a + b;
      footer := footer + seq(40 - |footer|, _ => 0);
      footer := footer + Fixed64Bytes(MAGIC);
      assert footer == FooterBytes(meta, index);
      file := file + footer;
      offset := offset + |footer|;
      assert file[|file| - FOOTER_SIZE..] == footer;
    }

    /** The filter block, if there is a filter policy. */
    method WriteFilter() returns (filter: Option<Handle>, ghost made: seq<seq<Bytes>>)
      requires filterBlock.Valid() && filterBlock.create == create && offset == |file| && AllStand(file, flushed, handles)
      requires hasFilter ==> Marked(filterBlock.added, flushed, handles) && filterBlock.block == offset
      modifies this`file, this`offset, filterBlock
      ensures old(file) <= file && offset == |file| && AllStand(file, flushed, handles) && filter.Some? == hasFilter
      ensures hasFilter ==> FilterStands(file, filter.value, made, create) && FilterCovers(flushed, handles, made)
      ensures |file| == |old(file)| + if hasFilter then filter.value.size + BLOCK_TRAILER_SIZE else 0
      ensures hasFilter && Modest(create) ==> filter.value.size <= 64 * old(filterBlock.Total()) + 4 * (|old(file)| / FILTER_BASE) + 9
    {
      hide RawBlock, FilterBuilder.Valid, FilterStands, FilterCovers, AllStand, Marked, Modest;
      ghost var before := file;
      filter, made := None, [];
      if hasFilter {
        var h;
        h, made := WriteFilterBlock();
        filter := Some(h);
        Grown(before, file, flushed, handles);
      }
    }

    /** All that comes after the filter block. */
    method WriteTail(filter: Option<Handle>) returns (ok: bool, ghost metaHandle: Handle, ghost indexHandle: Handle, ghost index: seq<Pair>)
      requires indexBlock.Valid() && |indexBlock.buffer| < MAX_SIZE && offset == |file| < MAX_FILE && |lastKey| < MAX_SIZE
      requires interval >= 1 && |filterKey| < MAX_SIZE && (filter.Some? ==> HandleOk(filter.value))
      requires AllStand(file, flushed, handles) && IndexedSoFar(indexBlock.entries, flushed, handles)
      requires if pendingIndexEntry then
          |flushed| == |indexBlock.entries| + 1 && pendingHandle == handles[|indexBlock.entries|] &&
          lastKey == Last(flushed[|indexBlock.entries|])
        else flushed == [] && indexBlock.entries == []
      requires pendingIndexEntry ==> LongEnough(lastKey) && pendingHandle.offset + pendingHandle.size < TWO_64
      modifies this`file, this`offset, this`lastKey, this`pendingIndexEntry, indexBlock
      ensures old(file) <= file && |index| == |flushed| == |handles| && Indexed(index, flushed, handles, |flushed|)
      ensures ok ==> |file| < TWO_64 && FooterStands(file, metaHandle, indexHandle) && BlockStands(file, indexHandle, index)
      ensures ok ==> BlockStands(file, metaHandle, MetaEntries(filterKey, filter))
      ensures |old(file)| + |filterKey| + 3 * (old(|indexBlock.buffer|) + if old(pendingIndexEntry) then old(|lastKey|) + 35 else 0) + 80 < MAX_FILE ==> ok
    {
      hide Flat, BlockBuilder.Valid, BlockStands, AllStand, IndexedSoFar, Indexed, HandleBytes, FooterStands, MetaEntries;
      var meta := WriteMetaIndex(filter);
      ghost var mid := file;
      Grown(old(file), mid, flushed, handles);
      var indexPlace;
      indexPlace, index := FinishIndex();
      metaHandle, indexHandle := meta, indexPlace;
      ok := offset < MAX_FILE;
      if ok {
        ghost var whole := file;
        GrownBlock(mid, whole, meta, MetaEntries(filterKey, filter));
        BlockInFile(whole, indexPlace, index);
        WriteFooter(meta, indexPlace);
        GrownBlock(whole, file, meta, MetaEntries(filterKey, filter));
        GrownBlock(whole, file, indexPlace, index);
      }
    }

    /** The last data block is written, and the table takes no more entries. */
    method Close()
      requires Valid() && Filling() && !closed && Room()
      modifies this, dataBlock, filterBlock
      ensures closed && Flat(flushed) == old(Entries()) && offset == |file| <= old(FileSize()) + 9 && filterBlock.Total() == old(filterBlock.Total())
      ensures indexBlock == old(indexBlock) && indexBlock.Valid() && filterBlock == old(filterBlock) && filterBlock.Valid() && filterBlock.create == create
      ensures interval >= 1 && |indexBlock.buffer| < MAX_SIZE && |lastKey| < MAX_SIZE && |filterKey| < MAX_SIZE
      ensures |indexBlock.buffer| + (if pendingIndexEntry then |lastKey| + 35 else 0) <= old(IndexSize())
      ensures AllStand(file, flushed, handles) && ListsOk(flushed) && IndexedSoFar(indexBlock.entries, flushed, handles)
      ensures if pendingIndexEntry then
          |flushed| == |indexBlock.entries| + 1 && pendingHandle == handles[|indexBlock.entries|] &&
          lastKey == Last(flushed[|indexBlock.entries|])
        else flushed == [] && indexBlock.entries == []
      ensures pendingIndexEntry ==> LongEnough(lastKey) && pendingHandle.offset + pendingHandle.size < |file|
      ensures hasFilter ==> Marked(filterBlock.added, flushed, handles) && filterBlock.block == offset
    {
      hide Flat, With, RawBlock, Consistent, FilterKnows, HasEntries, BlockBuilder.Valid, FilterBuilder.Valid, BlockStands,
           AllStand, ListsOk, Indexed, IndexedSoFar, Marked;
      EmptyWhenNothing(dataBlock);
      Flush();
      closed := true;
      EmptyWhenNothing(dataBlock);
      AtFinish(file, flushed, handles, indexBlock.entries, pendingIndexEntry, pendingHandle, lastKey, numEntries);
      if hasFilter { MarksAtFinish(filterBlock.added, filterBlock.block, flushed, handles, [], offset); }
    }

    /** Filter block, metaindex block, last index entry, index block and footer; given up when the file gets
        too large for its offsets. */
    method Finish() returns (ok: bool, ghost metaHandle: Handle, ghost indexHandle: Handle, filter: Option<Handle>,
                             ghost index: seq<Pair>, ghost made: seq<seq<Bytes>>)
      requires Valid() && Filling() && !closed && Room()
      modifies this, dataBlock, indexBlock, filterBlock
      ensures closed && Flat(flushed) == old(Entries()) && filter.Some? == hasFilter
      ensures ok ==> TableOk(file, indexHandle, index, flushed, handles) && FooterStands(file, metaHandle, indexHandle)
      ensures ok ==> BlockStands(file, metaHandle, MetaEntries(filterKey, filter))
      ensures ok && hasFilter ==> HandleOk(filter.value) && FilterStands(file, filter.value, made, create) && FilterCovers(flushed, handles, made)
      ensures old(FileSize()) + 3 * old(IndexSize()) + |filterKey| + (if hasFilter then filter.value.size else 0) + 200 < MAX_FILE ==> ok
      ensures hasFilter && Modest(create) ==> filter.value.size <= 64 * old(filterBlock.Total()) + 4 * ((old(FileSize()) + 9) / FILTER_BASE) + 9
    {
      hide Flat, With, RawBlock, Consistent, FilterKnows, HasEntries, BlockBuilder.Valid, FilterBuilder.Valid, BlockStands, FilterStands,
           FilterCovers, AllStand, ListsOk, Indexed, IndexedSoFar, Marked, Modest, HandleBytes, FooterBytes, FooterStands, MetaEntries;
      Close();
      filter, made := WriteFilter();
      metaHandle, indexHandle, index := Handle(0, 0), Handle(0, 0), [];
      if offset >= MAX_FILE {
        return false, metaHandle, indexHandle, filter, index, made;
      }
      ghost var mid := file;
      if hasFilter { FilterInFile(mid, filter.value, made, create); }
      ok, metaHandle, indexHandle, index := WriteTail(filter);
      Grown(mid, file, flushed, handles);
      if hasFilter { FilterStillStands(mid, file, filter.value, made, create); }
    }
  }

  lemma GrownBlock(file: Bytes, more: Bytes, h: Handle, es: seq<Pair>)
    requires file <= more && BlockStands(file, h, es)
    ensures BlockStands(more, h, es)
  {
    hide BlockStands;
    StillStands(file, more[|file|..], h, es);
    assert file + more[|file|..] == more;
  }

  lemma BlockInFile(file: Bytes, h: Handle, es: seq<Pair>)
    requires BlockStands(file, h, es)
    ensures h.offset + h.size < |file|
  {
    hide HasEntries;
  }

  lemma FilterInFile(file: Bytes, h: Handle, made: seq<seq<Bytes>>, create: seq<Bytes> -> Bytes)
    requires FilterStands(file, h, made, create)
    ensures h.offset + h.size < |file|
  {
    hide IsFilterBlock;
  }

  lemma NothingYet(create: seq<Bytes> -> Bytes)
    ensures Consistent([], [], [], [], [], false, Handle(0, 0), [], 0) && Flat(With([], [])) == []
  {
  }

  lemma EmptyWhenNothing(b: BlockBuilder)
    requires b.Valid()
    ensures b.buffer == [] <==> b.entries == []
    ensures |b.restarts| <= |b.entries| + 1 && 3 * |b.entries| <= |b.buffer|
  {
    FewRestarts(b.entries, b.starts);
  }

  lemma BlockEntries(raw: Bytes, es: seq<Pair>, starts: seq<nat>)
    requires IsBlock(raw, es, starts)
    ensures HasEntries(raw, es)
  {
  }

  lemma NotPending(file: Bytes, flushed: seq<seq<Pair>>, handles: seq<Handle>, es: seq<Pair>, index: seq<Pair>, pending: bool,
                   pendingHandle: Handle, lastKey: Bytes, numEntries: nat)
    requires Consistent(file, flushed, handles, es, index, pending, pendingHandle, lastKey, numEntries) && es != []
    ensures !pending
  {
  }

  lemma PendingKey(file: Bytes, flushed: seq<seq<Pair>>, handles: seq<Handle>, es: seq<Pair>, index: seq<Pair>,
                   pendingHandle: Handle, lastKey: Bytes, numEntries: nat)
    requires Consistent(file, flushed, handles, es, index, true, pendingHandle, lastKey, numEntries)
    ensures LongEnough(lastKey) && pendingHandle.offset + pendingHandle.size < |file|
  {
    hide Flat, BlockStands, Indexed;
    LastOfAll(flushed, es);
    LastIsLong(With(flushed, es));
    HandleInFile(file, flushed, handles, pendingHandle);
  }

  lemma SeparatesItself(lastKey: Bytes, key: Bytes)
    ensures Separates(lastKey, lastKey, key)
  {
  }

  lemma SameFlat(flushed: seq<seq<Pair>>, es: seq<Pair>)
    ensures es != [] ==> With(flushed + [es], []) == With(flushed, es)
  {
  }

  lemma HandleInFile(file: Bytes, flushed: seq<seq<Pair>>, handles: seq<Handle>, h: Handle)
    requires AllStand(file, flushed, handles) && h in handles
    ensures h.offset + h.size < |file|
  {
    hide HasEntries;
    var b :| 0 <= b < |handles| && handles[b] == h;
    assert BlockStands(file, handles[b], flushed[b]);
  }

  lemma SizeOfBlock(b: BlockBuilder, raw: Bytes)
    requires b.Valid() && IsBlock(raw, b.entries, b.starts)
    ensures |raw| == b.CurrentSizeEstimate()
  {
    hide Body, Fixed32s;
    var rs :| Finished(raw, b.entries, b.starts, rs);
    BlockTail(raw, b.entries, b.starts, rs);
  }

  /** The filter block stands in the file. */
  ghost predicate FilterStands(file: Bytes, h: Handle, made: seq<seq<Bytes>>, create: seq<Bytes> -> Bytes) {
    h.offset + h.size + BLOCK_TRAILER_SIZE <= |file| && file[h.offset + h.size] == 0 &&
    IsFilterBlock(file[h.offset..h.offset + h.size], made, create)
  }

  lemma FilterStillStands(file: Bytes, more: Bytes, h: Handle, made: seq<seq<Bytes>>, create: seq<Bytes> -> Bytes)
    requires file <= more && FilterStands(file, h, made, create)
    ensures FilterStands(more, h, made, create)
  {
    hide IsFilterBlock;
    assert more[h.offset..h.offset + h.size] == file[h.offset..h.offset + h.size];
  }

  lemma MarkedCovers(added: set<Mark>, lists: seq<seq<Pair>>, handles: seq<Handle>, made: seq<seq<Bytes>>)
    requires Marked(added, lists, handles)
    requires forall t :: t in added ==> t.block / FILTER_BASE < |made| && t.key in made[t.block / FILTER_BASE]
    ensures FilterCovers(lists, handles, made)
  {
    forall b, x | 0 <= b < |lists| && x in lists[b]
      ensures KeyCovered(handles[b].offset, x.key, made)
    {
      var t := Mark(handles[b].offset, x.key);
      assert t in added;
    }
  }

  lemma MarksAtFinish(added: set<Mark>, block: nat, flushed: seq<seq<Pair>>, handles: seq<Handle>, es: seq<Pair>, offset: nat)
    requires FilterKnows(added, block, flushed, handles, es, offset)
    ensures Marked(added, flushed, handles) && block == offset
  {
  }

  /** Once all blocks are written, either the index has all entries, and there are none, or the last one is missing. */
  lemma AtFinish(file: Bytes, flushed: seq<seq<Pair>>, handles: seq<Handle>, index: seq<Pair>, pending: bool,
                 pendingHandle: Handle, lastKey: Bytes, numEntries: nat)
    requires Consistent(file, flushed, handles, [], index, pending, pendingHandle, lastKey, numEntries)
    ensures With(flushed, []) == flushed && AllStand(file, flushed, handles) && ListsOk(flushed) && IndexedSoFar(index, flushed, handles)
    ensures if pending then |flushed| == |index| + 1 && pendingHandle == handles[|index|] && lastKey == Last(flushed[|index|]) else flushed == [] && index == []
    ensures pending ==> LongEnough(lastKey) && pendingHandle.offset + pendingHandle.size < |file|
  {
    hide Flat, BlockStands, Indexed;
    LastOfAll(flushed, []);
    if pending { PendingKey(file, flushed, handles, [], index, pendingHandle, lastKey, numEntries); }
  }

  lemma FinishedIndex(file: Bytes, flushed: seq<seq<Pair>>, handles: seq<Handle>, index: seq<Pair>, pending: bool, pendingHandle: Handle,
                      lastKey: Bytes, r: Bytes)
    requires AllStand(file, flushed, handles) && IndexedSoFar(index, flushed, handles)
    requires if pending then |flushed| == |index| + 1 && pendingHandle == handles[|index|] && lastKey == Last(flushed[|index|]) else flushed == [] && index == []
    requires pending ==> r == lastKey || (LongEnough(r) && BytesLess(UserOf(lastKey), UserOf(r)))
    ensures var all := if pending then index + [Pair(r, HandleBytes(pendingHandle))] else index;
      |all| == |flushed| == |handles| && Indexed(all, flushed, handles, |flushed|)
  {
    hide Flat, BlockStands, HandleBytes, BytesLess, UserOf;
    if pending { IndexFinished(index, flushed, handles, r); }
  }

  lemma Grown(file: Bytes, more: Bytes, lists: seq<seq<Pair>>, handles: seq<Handle>)
    requires file <= more && AllStand(file, lists, handles)
    ensures AllStand(more, lists, handles)
  {
    hide BlockStands;
    AllStillStand(file, more[|file|..], lists, handles);
    assert file + more[|file|..] == more;
  }
}
