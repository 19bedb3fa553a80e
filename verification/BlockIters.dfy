/** The block iterator: parses entries forward from restart points, and steps back by parsing again. */
module BlockIters {
  import opened Coding
  import opened BlockFormat
  import opened Blocks

  /** less orders keys, and the entries ascend in it. */
  ghost predicate Ascending(es: seq<Pair>, less: (Bytes, Bytes) -> bool) {
    forall i, j :: 0 <= i < j < |es| ==> less(es[i].key, es[j].key)
  }

  ghost predicate Transitive(less: (Bytes, Bytes) -> bool) {
    forall a, b, c :: less(a, b) && less(b, c) ==> less(a, c)
  }

  class Iter {
    const data: Bytes
    const restarts: nat
    const numRestarts: nat
    const less: (Bytes, Bytes) -> bool
    var current: nat
    var restartIndex: nat
    var key: Bytes
    /** Where value_ lies in the data. */
    var valueAt: nat
    var valueLength: nat
    var corrupt: bool
    /** What the block was built from, if it was built. */
    ghost const es: seq<Pair>
    ghost const starts: seq<nat>
    /** The index of the current entry; the number of entries when there is none. */
    ghost var at: nat

    ghost predicate Sound() {
      IsBlock(data, es, starts)
    }

    predicate IsValid()
      reads this
    {
      current < restarts
    }

    /** Where entries end and the restart array begins. */
    ghost predicate Layout() {
      numRestarts > 0 && restarts + 4 * numRestarts <= |data| &&
      (Sound() ==> restarts == |Body(es, starts)| && numRestarts == |starts| && data[..restarts] == Body(es, starts))
    }

    /** What holds of any bytes. */
    ghost predicate Safe()
      reads this
    {
      Layout() && (IsValid() ==> restartIndex < numRestarts && current < NextEntryOffset() <= restarts)
    }

    ghost predicate Valid()
      reads this
    {
      Safe() && (Sound() ==> if IsValid() then On(at) else at == |es|)
    }

    /** The iterator stands on entry i. */
    ghost predicate On(i: nat)
      reads this
    {
      i < |es| && current == Off(es, starts, i) && key == es[i].key && NextEntryOffset() == Off(es, starts, i + 1) &&
      Slice(data, valueAt, valueLength) == es[i].value && restartIndex < |starts| && starts[restartIndex] <= i
    }

    /** The next entry to be parsed is entry i. */
    ghost predicate Before(i: nat)
      reads this
    {
      i <= |es| && NextEntryOffset() == Off(es, starts, i) && restartIndex < |starts| && starts[restartIndex] <= i &&
      (i < |es| ==> var s := SharedAt(es, starts, i); s <= |key| && key[..s] == es[i].key[..s])
    }

    function NextEntryOffset(): nat
      reads this
    {
      valueAt + valueLength
    }

    constructor (data: Bytes, less: (Bytes, Bytes) -> bool, ghost es: seq<Pair>, ghost starts: seq<nat>)
      requires Readable(data)
      ensures Valid() && !IsValid() && !corrupt && this.data == data && this.less == less
      ensures this.es == es && this.starts == starts
    {
      this.data := data;
      this.less := less;
      this.es := es;
      this.starts := starts;
      numRestarts := NumRestarts(data);
      restarts := |data| - 4 * (1 + NumRestarts(data));
      current := |data| - 4 * (1 + NumRestarts(data));
      restartIndex := NumRestarts(data);
      key, valueAt, valueLength := [], 0, 0;
      corrupt := false;
      at := |es|;
      if IsBlock(data, es, starts) {
        var rs :| Finished(data, es, starts, rs);
        BlockTail(data, es, starts, rs);
      }
    }

    method GetRestartPoint(index: nat) returns (o: nat)
      requires Layout() && index < numRestarts
      ensures Sound() ==> starts[index] <= |es| && o == Off(es, starts, starts[index])
    {
      hide Off, Body;
      o := DecodeFixed32(data[restarts + 4 * index..restarts + 4 * index + 4]);
      if Sound() {
        var rs :| Finished(data, es, starts, rs);
        RestartPointIs(data, es, starts, rs, index);
      }
    }

    method SeekToRestartPoint(index: nat)
      requires Layout() && index < numRestarts
      modifies this`key, this`restartIndex, this`valueAt, this`valueLength
      ensures restartIndex == index
      ensures Sound() ==> Before(starts[index])
    {
      hide Off, Body, IsBlock, Common;
      var offset := GetRestartPoint(index);
      key := [];
      restartIndex := index;
      valueAt, valueLength := offset, 0;
      if Sound() { RestartSharesNothing(es, starts, index); }
    }

    method CorruptionError()
      requires Layout()
      modifies this
      ensures Safe() && !IsValid() && at == |es|
    {
      current := restarts;
      restartIndex := numRestarts;
      corrupt := true;
      key, valueAt, valueLength := [], 0, 0;
      at := |es|;
    }

    /** The entry that begins where current says: its key from the key before, and where its value is. */
    method ReadEntry(ghost i: nat) returns (ok: bool)
      requires Layout() && current == NextEntryOffset() < restarts
      modifies this`key, this`valueAt, this`valueLength
      ensures ok ==> current < NextEntryOffset() <= restarts
      ensures Sound() && old(Before(i)) ==>
        ok && i < |es| && key == es[i].key && NextEntryOffset() == Off(es, starts, i + 1) && Slice(data, valueAt, valueLength) == es[i].value
    {
      hide Off, Body, IsBlock, SharedAt, EntryBytes, Slice, Header;
      ghost var near := Sound() && Before(i);
      ghost var shared, e := 0, Pair([], []);
      if near {
        EntryHere(data, es, starts, i, restarts);
        shared, e := SharedAt(es, starts, i), es[i];
      }
      var d := DecodeEntry(data, current, restarts, shared, e);
      if d.None? || |key| < d.value.shared {
        return false;
      }
      ghost var before := key;
      key := key[..d.value.shared] + data[d.value.delta..d.value.delta + d.value.nonShared];
      valueAt, valueLength := d.value.delta + d.value.nonShared, d.value.valueLength;
      if near { EntryParsed(data, es, starts, i, current, restarts, before, valueAt); }
      ok := true;
    }

    /** Parses the entry after the current one; in a sound block, entry i if there is one. */
    method ParseNextKey(ghost i: nat) returns (ok: bool)
      requires Layout() && restartIndex < numRestarts
      modifies this
      ensures Safe() && (ok <==> IsValid()) && (ok ==> current == old(NextEntryOffset()))
      ensures Sound() && old(Before(i)) ==> Valid() && corrupt == old(corrupt) && at == i && (ok <==> i < |es|)
    {
      hide Off, Body, IsBlock, SharedAt, EntryBytes, Slice, Header;
      ghost var near := Sound() && Before(i);
      current := NextEntryOffset();
      if current >= restarts {
        if near { NothingAtEnd(es, starts, i); }
        current := restarts;
        restartIndex := numRestarts;
        at := |es|;
        return false;
      }
      ok := ReadEntry(i);
      if !ok {
        CorruptionError();
        return;
      }
      AdvanceRestart(i);
      at := i;
    }

    /** Moves restart_index_ on to the last restart point before the current entry. */
    method AdvanceRestart(ghost i: nat)
      requires Layout() && restartIndex < numRestarts
      modifies this`restartIndex
      ensures restartIndex < numRestarts
      ensures Sound() && i <= |es| && current == Off(es, starts, i) && old(starts[restartIndex]) <= i ==> starts[restartIndex] <= i
    {
      hide Off, Body, IsBlock;
      ghost var near := Sound() && i <= |es| && current == Off(es, starts, i) && starts[restartIndex] <= i;
      while restartIndex + 1 < numRestarts
        invariant restartIndex < numRestarts && (near ==> starts[restartIndex] <= i)
        decreases numRestarts - restartIndex
      {
        var o := GetRestartPoint(restartIndex + 1);
        if o >= current {
          break;
        }
        if near { OffsetOrder(es, starts, starts[restartIndex + 1], i); }
        restartIndex := restartIndex + 1;
      }
    }

    /** Standing on an entry, the next to be parsed is the one after it. */
    lemma NextIsBefore()
      requires Valid() && IsValid() && Sound()
      ensures Before(at + 1)
    {
      hide Body, IsBlock, Off;
      if at + 1 < |es| { CommonIsPrefix(es[at].key, es[at + 1].key, 0); }
    }

    method SeekToFirst()
      requires Valid()
      modifies this
      ensures Valid() && (Sound() ==> at == 0 && corrupt == old(corrupt))
    {
      hide Off, Body, Before, On;
      SeekToRestartPoint(0);
      var _ := ParseNextKey(0);
    }

    method Next()
      requires Valid() && IsValid()
      modifies this
      ensures Valid() && (Sound() ==> at == old(at) + 1 && corrupt == old(corrupt))
    {
      hide Off, Body, Before;
      if Sound() { NextIsBefore(); }
      var _ := ParseNextKey(at + 1);
    }

    /** Entries from first on are parsed until one ends at or after the limit: that is entry last. */
    ghost predicate Reaches(first: nat, last: nat, limit: nat)
      reads this
    {
      Before(first) &&
      (first < |es| ==> first <= last < |es| && Off(es, starts, last) < limit <= Off(es, starts, last + 1))
    }

    method SkipTo(limit: nat, ghost first: nat, ghost last: nat)
      requires Layout() && restartIndex < numRestarts && (Sound() ==> Reaches(first, last, limit))
      modifies this
      ensures Valid()
      ensures Sound() ==> corrupt == old(corrupt) && at == if first < |es| then last else |es|
    {
      hide Off, Body, IsBlock, Before, On;
      ghost var p: nat := first;
      var ok := ParseNextKey(first);
      while ok && NextEntryOffset() < limit
        invariant Valid() && (ok <==> IsValid()) && (Sound() ==> corrupt == old(corrupt) && at == p)
        invariant Sound() && first < |es| ==> ok && p <= last
        invariant Sound() && first >= |es| ==> !ok
        decreases ok, restarts - current
      {
        if Sound() {
          NextIsBefore();
          EndOfCurrent();
          OffsetOrder(es, starts, p + 1, last + 1);
        }
        p := p + 1;
        ok := ParseNextKey(p);
      }
      if Sound() && ok {
        EndOfCurrent();
        OffsetOrder(es, starts, last, p + 1);
      }
    }

    lemma EndOfCurrent()
      requires Valid() && IsValid() && Sound()
      ensures at < |es| && NextEntryOffset() == Off(es, starts, at + 1) && current == Off(es, starts, at)
      ensures restartIndex < |starts| && starts[restartIndex] <= at
    {
      hide Off, Body, IsBlock;
    }

    /** Back to a restart point before the current entry, and on to the entry just before it. */
    method Prev()
      requires Valid() && IsValid()
      modifies this
      ensures Valid() && (Sound() ==> corrupt == old(corrupt) && at == if old(at) == 0 then |es| else old(at) - 1)
    {
      hide Off, Body, IsBlock, Before, On;
      var original := current;
      ghost var i := at;
      if Sound() { EndOfCurrent(); }
      var o := GetRestartPoint(restartIndex);
      while o >= original
        invariant Layout() && restartIndex < numRestarts && at == i && corrupt == old(corrupt)
        invariant Sound() ==> starts[restartIndex] <= i < |es| && o == Off(es, starts, starts[restartIndex]) && original == Off(es, starts, i)
        decreases restartIndex
      {
        if Sound() { OffsetOrder(es, starts, starts[restartIndex], i); }
        if restartIndex == 0 {
          current := restarts;
          restartIndex := numRestarts;
          at := |es|;
          if Sound() { FirstStart(data, es, starts); }
          return;
        }
        restartIndex := restartIndex - 1;
        if Sound() { StartsAscend(data, es, starts, restartIndex, restartIndex + 1); }
        o := GetRestartPoint(restartIndex);
      }
      if Sound() {
        OffsetOrder(es, starts, starts[restartIndex], i);
        OffsetOrder(es, starts, i - 1, i);
      }
      ghost var first := if Sound() then starts[restartIndex] else 0;
      SeekToRestartPoint(restartIndex);
      SkipTo(original, first, if i > 0 then i - 1 else 0);
    }

    method SeekToLast()
      requires Valid()
      modifies this
      ensures Valid() && (Sound() ==> corrupt == old(corrupt) && at == if es == [] then 0 else |es| - 1)
    {
      hide Off, Body, IsBlock, Before, On;
      ghost var last := if es == [] then 0 else |es| - 1;
      ghost var first := if Sound() then starts[numRestarts - 1] else 0;
      if Sound() { LastOffsets(data, es, starts, first, last); }
      SeekToRestartPoint(numRestarts - 1);
      SkipTo(restarts, first, last);
    }

    /** The first entry at or after the target: binary search over the restart points, then a scan. */
    method Seek(target: Bytes)
      requires Valid()
      modifies this
      ensures Valid()
      ensures Sound() && Ascending(es, less) && Transitive(less) ==> FirstReaching(es, less, target, at) && corrupt == old(corrupt)
    {
      hide Off, Body, IsBlock, Before, On, Ascending, Transitive, FirstReaching, AllLess, SharedAt, EntryBytes, Slice, Header;
      ghost var good := Sound() && Ascending(es, less) && Transitive(less);
      var left, found := FindRestartPoint(target);
      if !found {
        CorruptionError();
        return;
      }
      ghost var p: nat := if Sound() then starts[left] else 0;
      if good { SmallerBefore(data, es, starts, less, target, left); }
      SeekToRestartPoint(left);
      var ok := ParseNextKey(p);
      if Sound() { StartInside(data, es, starts, left); }
      while ok && less(key, target)
        invariant Valid() && (ok <==> IsValid())
        invariant Sound() ==> corrupt == old(corrupt) && at == p && (ok <==> p < |es|)
        invariant good ==> AllLess(es, less, target, p)
        decreases ok, restarts - current
      {
        if Sound() {
          NextIsBefore();
          KeyOfCurrent();
        }
        if good { OneMoreLess(es, less, target, p); }
        p := p + 1;
        ok := ParseNextKey(p);
      }
      if Sound() && ok { KeyOfCurrent(); }
      if good { StopsAt(es, less, target, p); }
    }

    /** The last restart point whose key is before the target, or the first; none in a corrupt block. */
    method FindRestartPoint(target: Bytes) returns (left: nat, found: bool)
      requires Layout()
      ensures left < numRestarts
      ensures Sound() ==> found && starts[left] <= |es|
      ensures Sound() && left > 0 ==> starts[left] < |es| && less(es[starts[left]].key, target)
    {
      hide Off, Body, IsBlock, EntryBytes, Header, SharedAt, Common, VarintAt, Varint;
      left := 0;
      var right := numRestarts - 1;
      while left < right
        invariant 0 <= left <= right < numRestarts
        invariant Sound() && left > 0 ==> starts[left] < |es| && less(es[starts[left]].key, target)
      {
        var mid := (left + right + 1) / 2;
        var regionOffset := GetRestartPoint(mid);
        ghost var e := Pair([], []);
        if Sound() {
          StartInside(data, es, starts, mid);
          e := es[starts[mid]];
          OffsetInside(es, starts, starts[mid]);
          EntryHere(data, es, starts, starts[mid], restarts);
          RestartSharesNothing(es, starts, mid);
        }
        if regionOffset > restarts {
          return left, false;
        }
        var d := DecodeEntry(data, regionOffset, restarts, 0, e);
        if d.None? || d.value.shared != 0 {
          return left, false;
        }
        var midKey := data[d.value.delta..d.value.delta + d.value.nonShared];
        if Sound() {
          HeaderVarints(data, regionOffset, restarts, 0, e);
          assert e.key[0..] == e.key;
        }
        if less(midKey, target) {
          left := mid;
        } else {
          right := mid - 1;
        }
      }
      if Sound() { StartInside(data, es, starts, left); }
      found := true;
    }

    lemma KeyOfCurrent()
      requires Valid() && IsValid() && Sound()
      ensures at < |es| && key == es[at].key && Slice(data, valueAt, valueLength) == es[at].value
    {
      hide Off, Body, IsBlock;
    }
  }

  /** The keys of the first i entries are before the target. */
  ghost predicate AllLess(es: seq<Pair>, less: (Bytes, Bytes) -> bool, target: Bytes, i: nat) {
    i <= |es| && forall j :: 0 <= j < i ==> less(es[j].key, target)
  }

  /** Entry i is the first whose key is not before the target; |es| when there is none. */
  ghost predicate FirstReaching(es: seq<Pair>, less: (Bytes, Bytes) -> bool, target: Bytes, i: nat) {
    AllLess(es, less, target, i) && (i < |es| ==> !less(es[i].key, target))
  }

  lemma OneMoreLess(es: seq<Pair>, less: (Bytes, Bytes) -> bool, target: Bytes, i: nat)
    requires AllLess(es, less, target, i) && i < |es| && less(es[i].key, target)
    ensures AllLess(es, less, target, i + 1)
  {
  }

  lemma StopsAt(es: seq<Pair>, less: (Bytes, Bytes) -> bool, target: Bytes, i: nat)
    requires AllLess(es, less, target, i) && (i < |es| ==> !less(es[i].key, target))
    ensures FirstReaching(es, less, target, i)
  {
  }

  /** Everything before a restart point whose key is before the target is before it too. */
  lemma SmallerBefore(data: Bytes, es: seq<Pair>, starts: seq<nat>, less: (Bytes, Bytes) -> bool, target: Bytes, left: nat)
    requires IsBlock(data, es, starts) && Ascending(es, less) && Transitive(less) && left < |starts|
    requires left > 0 ==> starts[left] < |es| && less(es[starts[left]].key, target)
    ensures AllLess(es, less, target, starts[left])
  {
    StartInside(data, es, starts, left);
  }

  lemma StartInside(data: Bytes, es: seq<Pair>, starts: seq<nat>, j: nat)
    requires IsBlock(data, es, starts) && j < |starts|
    ensures starts[j] <= |es| && (j > 0 ==> starts[j] < |es|) && (j == 0 ==> starts[j] == 0)
  {
  }

  lemma OffsetInside(es: seq<Pair>, starts: seq<nat>, i: nat)
    requires i < |es|
    ensures Off(es, starts, i) < |Body(es, starts)|
  {
    hide Body;
    assert es[..|es|] == es;
    OffsetOrder(es, starts, i, |es|);
  }

  lemma FirstStart(data: Bytes, es: seq<Pair>, starts: seq<nat>)
    requires IsBlock(data, es, starts)
    ensures starts[0] == 0
  {
  }

  lemma StartsAscend(data: Bytes, es: seq<Pair>, starts: seq<nat>, j: nat, k: nat)
    requires IsBlock(data, es, starts) && j < k < |starts|
    ensures starts[j] < starts[k]
  {
  }

  lemma LastOffsets(data: Bytes, es: seq<Pair>, starts: seq<nat>, first: nat, last: nat)
    requires IsBlock(data, es, starts) && first in starts && last == if es == [] then 0 else |es| - 1
    ensures first <= last && (es == [] ==> first == 0)
    ensures es != [] ==> first < |es| && Off(es, starts, last) < |Body(es, starts)| == Off(es, starts, last + 1)
  {
    hide Body;
    var j :| 0 <= j < |starts| && starts[j] == first;
    assert es[..|es|] == es;
    if es != [] { OffsetOrder(es, starts, last, |es|); }
  }

  /** Past the last entry there is no other. */
  lemma NothingAtEnd(es: seq<Pair>, starts: seq<nat>, i: nat)
    requires i <= |es| && Off(es, starts, i) >= |Body(es, starts)|
    ensures i == |es|
  {
    hide Body;
    assert es[..|es|] == es;
    OffsetOrder(es, starts, i, |es|);
  }

  /** In a sound block entry i stands at its offset. */
  lemma EntryHere(data: Bytes, es: seq<Pair>, starts: seq<nat>, i: nat, restarts: nat)
    requires IsBlock(data, es, starts) && i <= |es| && restarts == |Body(es, starts)| <= |data|
    requires data[..restarts] == Body(es, starts) && Off(es, starts, i) < restarts
    ensures i < |es| && |es[i].key| < MAX_SIZE && |es[i].value| < MAX_SIZE
    ensures var o, b := Off(es, starts, i), EntryBytes(SharedAt(es, starts, i), es[i]);
      o + |b| == Off(es, starts, i + 1) <= restarts && data[o..o + |b|] == b
  {
    hide Body, SharedAt, EntryBytes;
    assert es[..|es|] == es;
    EntryInBody(es, starts, i);
    assert es[i] in es;
    var o, b := Off(es, starts, i), EntryBytes(SharedAt(es, starts, i), es[i]);
    assert data[o..o + |b|] == data[..restarts][o..o + |b|];
  }

  /** What parsing entry i yields. */
  lemma EntryParsed(data: Bytes, es: seq<Pair>, starts: seq<nat>, i: nat, o: nat, restarts: nat, before: Bytes, valueAt: nat)
    requires i < |es| && o == Off(es, starts, i) && restarts <= |data|
    requires var s, e := SharedAt(es, starts, i), es[i];
      s <= |before| && before[..s] == e.key[..s] && Off(es, starts, i + 1) == o + |EntryBytes(s, e)| <= restarts &&
      data[o..o + |EntryBytes(s, e)|] == EntryBytes(s, e) &&
      valueAt == o + |Header(s, |e.key| - s, |e.value|)| + |e.key| - s
    ensures var s, e := SharedAt(es, starts, i), es[i];
      valueAt - (|e.key| - s) >= 0 && valueAt <= |data| &&
      before[..s] + data[valueAt - (|e.key| - s)..valueAt] == e.key &&
      valueAt + |e.value| == Off(es, starts, i + 1) && Slice(data, valueAt, |e.value|) == e.value
  {
    hide Off, SharedAt, Varint;
    var s, e := SharedAt(es, starts, i), es[i];
    HeaderVarints(data, o, restarts, s, e);
    assert e.key == e.key[..s] + e.key[s..];
  }

  function Slice(b: Bytes, p: nat, n: nat): Bytes {
    if p + n <= |b| then b[p..p + n] else []
  }

  lemma RestartSharesNothing(es: seq<Pair>, starts: seq<nat>, j: nat)
    requires j < |starts|
    ensures starts[j] < |es| ==> SharedAt(es, starts, starts[j]) == 0
  {
  }
}
