/** The filter block of a table: one filter for the keys of the blocks that start in each 2 KB. */
module FilterBlocks {
  import opened Coding
  import opened BlockFormat
  import Bloom
  import Separators

  const FILTER_BASE_LG: Byte := 11
  const FILTER_BASE: nat := 2048

  // ------------------------------------------------------------ policies

  /** A key that is the same as one in the filter always matches. */
  ghost predicate NeverMisses(create: seq<Bytes> -> Bytes, may: (Bytes, Bytes) -> bool, same: (Bytes, Bytes) -> bool) {
    forall keys: seq<Bytes>, x, key :: x in keys && same(x, key) ==> may(key, create(keys))
  }

  function Users(keys: seq<Bytes>): seq<Bytes> {
    seq(|keys|, i requires 0 <= i < |keys| => Separators.UserOf(keys[i]))
  }

  /** InternalFilterPolicy over Bloom filters: only user keys are in the filter. */
  lemma InternalBloomNeverMisses(bitsPerKey: nat, k: Byte, hash: Bytes -> Word)
    ensures NeverMisses(keys => Bloom.BloomFilter(Users(keys), bitsPerKey, k, hash),
                        (key, f) => Bloom.MayMatch(Separators.UserOf(key), f, hash),
                        (x, key) => Separators.UserOf(x) == Separators.UserOf(key))
  {
    hide Bloom.BloomFilter, Bloom.MayMatch, Separators.UserOf;
    forall keys: seq<Bytes>, x, key | x in keys && Separators.UserOf(x) == Separators.UserOf(key)
      ensures Bloom.MayMatch(Separators.UserOf(key), Bloom.BloomFilter(Users(keys), bitsPerKey, k, hash), hash)
    {
      var i :| 0 <= i < |keys| && keys[i] == x;
      assert Users(keys)[i] == Separators.UserOf(key);
      Bloom.KeysMatch(Users(keys), bitsPerKey, k, hash, Separators.UserOf(key));
    }
  }

  // ------------------------------------------------------------ the format

  function FilterOf(keys: seq<Bytes>, create: seq<Bytes> -> Bytes): Bytes {
    if keys == [] then [] else create(keys)
  }

  function Filters(made: seq<seq<Bytes>>, create: seq<Bytes> -> Bytes): Bytes {
    if made == [] then [] else Filters(made[..|made| - 1], create) + FilterOf(made[|made| - 1], create)
  }

  /** Where filter i begins, in 32 bits. */
  function OffsetOf(made: seq<seq<Bytes>>, create: seq<Bytes> -> Bytes, i: nat): Word
    requires i <= |made|
  {
    |Filters(made[..i], create)| % 0x1_0000_0000
  }

  function Offsets(made: seq<seq<Bytes>>, create: seq<Bytes> -> Bytes): seq<Word> {
    seq(|made|, i requires 0 <= i < |made| => OffsetOf(made, create, i))
  }

  /** r has the filters of the given lists of keys, their offsets, where those begin, and the parameter. */
  ghost predicate IsFilterBlock(r: Bytes, made: seq<seq<Bytes>>, create: seq<Bytes> -> Bytes) {
    r == Filters(made, create) + Fixed32s(Offsets(made, create)) + EncodeFixed32(OffsetOf(made, create, |made|)) + [FILTER_BASE_LG]
  }

  // ------------------------------------------------------------ building

  /** keys are the pending ones one after another, beginning where start says. */
  ghost predicate Flattened(keys: Bytes, start: seq<nat>, pending: seq<Bytes>) {
    |start| == |pending| && forall i :: 0 <= i < |start| ==> PieceAt(keys, start[i], EndOf(keys, start, i), pending[i])
  }

  function EndOf(keys: Bytes, start: seq<nat>, i: nat): nat {
    if i + 1 < |start| then start[i + 1] else |keys|
  }

  ghost predicate PieceAt(keys: Bytes, from: nat, to: nat, key: Bytes) {
    from <= to <= |keys| && keys[from..to] == key
  }

  lemma FlattenedMore(keys: Bytes, start: seq<nat>, pending: seq<Bytes>, key: Bytes)
    requires Flattened(keys, start, pending)
    ensures Flattened(keys + key, start + [|keys|], pending + [key])
  {
    var k, s := keys + key, start + [|keys|];
    forall i | 0 <= i < |s| ensures PieceAt(k, s[i], EndOf(k, s, i), (pending + [key])[i]) {
      if i < |start| {
        var to := EndOf(keys, start, i);
        assert PieceAt(keys, start[i], to, pending[i]);
        assert k[start[i]..to] == keys[start[i]..to];
      }
    }
  }

  datatype Mark = Mark(block: nat, key: Bytes)

  /** Every key added is in the filter of its block, or will be. */
  ghost predicate Placed(added: set<Mark>, made: seq<seq<Bytes>>, pending: seq<Bytes>) {
    forall t :: t in added ==>
      if t.block / FILTER_BASE < |made| then t.key in made[t.block / FILTER_BASE]
      else t.block / FILTER_BASE == |made| && t.key in pending
  }

  class FilterBuilder {
    const create: seq<Bytes> -> Bytes
    var keys: Bytes
    var start: seq<nat>
    var result: Bytes
    var filterOffsets: seq<Word>
    /** Keys waiting for their filter, those of each filter made, and all with the blocks they were added for. */
    ghost var pending: seq<Bytes>
    ghost var made: seq<seq<Bytes>>
    ghost var added: set<Mark>
    ghost var block: nat

    ghost predicate Valid()
      reads this
    {
      Flattened(keys, start, pending) && result == Filters(made, create) && filterOffsets == Offsets(made, create) &&
      Placed(added, made, pending) && |made| == block / FILTER_BASE
    }

    constructor (create: seq<Bytes> -> Bytes)
      ensures Valid() && added == {} && block == 0 && Total() == 0 && this.create == create && filterOffsets == []
    {
      this.create := create;
      keys, start, result, filterOffsets := [], [], [], [];
      pending, made, added, block := [], [], {}, 0;
    }

    /** How many keys were added. */
    ghost function Total(): nat
      reads this
    {
      KeyCount(made) + |pending|
    }

    method GenerateFilter()
      requires Flattened(keys, start, pending) && result == Filters(made, create) && filterOffsets == Offsets(made, create)
      requires Placed(added, made, pending)
      modifies this`keys, this`start, this`result, this`filterOffsets, this`pending, this`made
      ensures Flattened(keys, start, pending) && result == Filters(made, create) && filterOffsets == Offsets(made, create)
      ensures made == old(made) + [old(pending)] && pending == [] && Placed(added, made, pending) && Total() == old(Total())
    {
      hide Filters, FilterOf, KeyCount;
      OneMoreList(made, pending);
      OneMoreFilter(made, pending, create);
      PlacedInFilter(added, made, pending);
      filterOffsets := filterOffsets + [|result| % 0x1_0000_0000];
      if start != [] {
        var tmpKeys := KeyList(keys, start, pending);
        FilterOfKeys(tmpKeys, create);
        result := result + create(tmpKeys);
        keys, start := [], [];
      } else {
        assert result + [] == result;
      }
      made, pending := made + [pending], [];
    }

    method StartBlock(blockOffset: nat)
      requires Valid() && blockOffset / FILTER_BASE >= |filterOffsets|
      modifies this
      ensures Valid() && block == blockOffset && added == old(added) && Total() == old(Total())
    {
      hide Filters, Flattened, Placed, KeyCount;
      var filterIndex := blockOffset / FILTER_BASE;
      while filterIndex > |filterOffsets|
        invariant Flattened(keys, start, pending) && result == Filters(made, create) && filterOffsets == Offsets(made, create)
        invariant Placed(added, made, pending) && |filterOffsets| <= filterIndex && added == old(added) && Total() == old(Total())
      {
        GenerateFilter();
      }
      block := blockOffset;
    }

    method AddKey(key: Bytes)
      requires Valid()
      modifies this
      ensures Valid() && block == old(block) && added == old(added) + {Mark(block, key)} && Total() == old(Total()) + 1
    {
      hide Filters, Flattened;
      FlattenedMore(keys, start, pending, key);
      start := start + [|keys|];
      keys := keys + key;
      pending := pending + [key];
      added := added + {Mark(block, key)};
    }

    /** Every key is now in the filter of the range its block starts in. */
    method Finish() returns (r: Bytes)
      requires Valid()
      modifies this
      ensures IsFilterBlock(r, made, create) && added == old(added)
      ensures block == old(block) && KeyCount(made) == old(Total()) && |r| == |Filters(made, create)| + 4 * |made| + 5 && |made| <= block / FILTER_BASE + 1
      ensures forall t :: t in added ==> t.block / FILTER_BASE < |made| && t.key in made[t.block / FILTER_BASE]
    {
      hide Filters, Fixed32s, EncodeFixed32, KeyCount;
      if start != [] {
        GenerateFilter();
      }
      assert made[..|made|] == made;
      var arrayOffset := |result| % 0x1_0000_0000;
      ghost var front, ws := result, filterOffsets;
      NoNumbers();
      for i := 0 to |filterOffsets|
        invariant filterOffsets == ws == Offsets(made, create) && result == front + Fixed32s(ws[..i])
        invariant Placed(added, made, pending) && pending == [] && added == old(added) && front == Filters(made, create)
        invariant block == old(block) && KeyCount(made) == old(Total()) && |made| <= block / FILTER_BASE + 1
      {
        OneMoreNumber(ws, i);
        result := result + EncodeFixed32(filterOffsets[i]);
      }
      assert ws[..|ws|] == ws && made[..|made|] == made;
      Fixed32sLength(ws);
      result := result + EncodeFixed32(arrayOffset);
      result := result + [FILTER_BASE_LG];
      r := result;
    }
  }

  // ------------------------------------------------------------ how large filters get

  function KeyCount(made: seq<seq<Bytes>>): nat {
    if made == [] then 0 else KeyCount(made[..|made| - 1]) + |made[|made| - 1]|
  }

  lemma OneMoreList(made: seq<seq<Bytes>>, keys: seq<Bytes>)
    ensures KeyCount(made + [keys]) == KeyCount(made) + |keys|
  {
    assert (made + [keys])[..|made|] == made;
  }

  /** Filters take at most 64 bytes a key. */
  ghost predicate Modest(create: seq<Bytes> -> Bytes) {
    forall keys: seq<Bytes> :: keys != [] ==> |create(keys)| <= 64 * |keys|
  }

  lemma {:induction false} ModestFilters(made: seq<seq<Bytes>>, create: seq<Bytes> -> Bytes)
    requires Modest(create)
    ensures |Filters(made, create)| <= 64 * KeyCount(made)
  {
    if made != [] { ModestFilters(made[..|made| - 1], create); }
  }

  /** Bloom filters are modest, with up to 400 bits a key. */
  lemma BloomIsModest(bitsPerKey: nat, k: Byte, hash: Bytes -> Word)
    requires bitsPerKey <= 400
    ensures Modest(keys => Bloom.BloomFilter(Users(keys), bitsPerKey, k, hash))
  {
    hide Separators.UserOf;
    forall keys: seq<Bytes> | keys != [] ensures |Bloom.BloomFilter(Users(keys), bitsPerKey, k, hash)| <= 64 * |keys| {
      assert |keys| * bitsPerKey <= |keys| * 400;
    }
  }

  lemma NoNumbers()
    ensures Fixed32s([]) == []
  {
  }

  lemma OneMoreNumber(ws: seq<Word>, i: nat)
    requires i < |ws|
    ensures Fixed32s(ws[..i + 1]) == Fixed32s(ws[..i]) + EncodeFixed32(ws[i])
  {
    assert ws[..i + 1][..i] == ws[..i];
  }

  lemma FilterOfKeys(keys: seq<Bytes>, create: seq<Bytes> -> Bytes)
    ensures keys != [] ==> FilterOf(keys, create) == create(keys)
    ensures FilterOf([], create) == []
  {
  }

  lemma OneMoreFilter(made: seq<seq<Bytes>>, keys: seq<Bytes>, create: seq<Bytes> -> Bytes)
    ensures Filters(made + [keys], create) == Filters(made, create) + FilterOf(keys, create)
    ensures Offsets(made + [keys], create) == Offsets(made, create) + [|Filters(made, create)| % 0x1_0000_0000]
    ensures FilterOf([], create) == []
  {
    var m := made + [keys];
    assert m[..|made|] == made;
    forall i | 0 <= i <= |made| ensures OffsetOf(m, create, i) == |Filters(made[..i], create)| % 0x1_0000_0000 { assert m[..i] == made[..i]; }
    assert made[..|made|] == made;
  }

  lemma PlacedInFilter(added: set<Mark>, made: seq<seq<Bytes>>, pending: seq<Bytes>)
    requires Placed(added, made, pending)
    ensures Placed(added, made + [pending], [])
  {
  }

  /** The keys taken out of the flat string again. */
  method KeyList(keys: Bytes, start: seq<nat>, ghost pending: seq<Bytes>) returns (r: seq<Bytes>)
    requires Flattened(keys, start, pending)
    ensures r == pending
  {
    hide Flattened;
    var s := start + [|keys|];
    r := [];
    FlatPieces(keys, start, pending);
    for i := 0 to |start|
      invariant r == pending[..i]
    {
      assert PieceAt(keys, s[i], s[i + 1], pending[i]);
      r := r + [keys[s[i]..s[i + 1]]];
    }
  }

  lemma FlatPieces(keys: Bytes, start: seq<nat>, pending: seq<Bytes>)
    requires Flattened(keys, start, pending)
    ensures |start| == |pending|
    ensures var s := start + [|keys|]; forall i :: 0 <= i < |start| ==> PieceAt(keys, s[i], s[i + 1], pending[i])
  {
    var s := start + [|keys|];
    forall i | 0 <= i < |start| ensures PieceAt(keys, s[i], s[i + 1], pending[i]) { assert EndOf(keys, start, i) == s[i + 1]; }
  }

  // ------------------------------------------------------------ reading

  class FilterReader {
    const contents: Bytes
    const may: (Bytes, Bytes) -> bool
    const baseLg: nat
    const offset: nat
    const num: nat

    ghost predicate Valid() {
      (num > 0 ==> offset + 4 * num + 5 <= |contents|) && (WellFormed() ==> baseLg == contents[|contents| - 1]) &&
      (WellFormed() ==> offset == DecodeFixed32(contents[|contents| - 5..]) && num == (|contents| - 5 - offset) / 4)
    }

    ghost predicate WellFormed() {
      |contents| >= 5 && DecodeFixed32(contents[|contents| - 5..]) <= |contents| - 5
    }

    constructor (contents: Bytes, may: (Bytes, Bytes) -> bool)
      ensures Valid() && this.contents == contents && this.may == may
    {
      this.contents := contents;
      this.may := may;
      baseLg, offset, num := 0, 0, 0;
      var n := |contents|;
      if n >= 5 {
        baseLg := contents[n - 1];
        var lastWord := DecodeFixed32(contents[n - 5..]);
        if lastWord <= n - 5 {
          offset := lastWord;
          num := (n - 5 - lastWord) / 4;
        }
      }
    }

    /** Where filter number index begins and ends. */
    method Extent(index: nat, ghost made: seq<seq<Bytes>>, ghost create: seq<Bytes> -> Bytes) returns (start: nat, limit: nat)
      requires Valid() && index < num
      ensures IsFilterBlock(contents, made, create) && |Filters(made, create)| < 0x1_0000_0000 && index < |made| && offset == |Filters(made, create)| ==>
        start <= limit <= offset && contents[start..limit] == FilterOf(made[index], create)
    {
      hide Filters, FilterOf, IsFilterBlock, DecodeFixed32;
      if IsFilterBlock(contents, made, create) && |Filters(made, create)| < 0x1_0000_0000 && index < |made| {
        FilterInBlock(contents, made, create, index);
      }
      start := DecodeFixed32(contents[offset + index * 4..offset + index * 4 + 4]);
      limit := DecodeFixed32(contents[offset + index * 4 + 4..offset + index * 4 + 8]);
    }

    /** Errors are treated as potential matches. Of a filter block, exactly what the policy says of the
        filter for the range the block starts in. */
    method KeyMayMatch(blockOffset: nat, key: Bytes, ghost made: seq<seq<Bytes>>, ghost create: seq<Bytes> -> Bytes) returns (r: bool)
      requires Valid()
      ensures IsFilterBlock(contents, made, create) && |Filters(made, create)| < 0x1_0000_0000 ==>
        var i := blockOffset / FILTER_BASE; r == (i < |made| ==> may(key, FilterOf(made[i], create)))
    {
      hide Filters, FilterOf, IsFilterBlock, RangeOf, DecodeFixed32;
      PowerOfBase(blockOffset);
      if IsFilterBlock(contents, made, create) && |Filters(made, create)| < 0x1_0000_0000 { BlockLayout(contents, made, create); }
      var index := RangeOf(blockOffset, baseLg);
      if index < num {
        var start, limit := Extent(index, made, create);
        if start <= limit && limit <= offset {
          return may(key, contents[start..limit]);
        } else if start == limit {
          return false;
        }
      }
      r := true;
    }
  }

  /** The range of 2^lg bytes that an offset falls in: a shift to the right. */
  function RangeOf(offset: nat, lg: nat): nat {
    if lg == 0 then offset else RangeOf(offset / 2, lg - 1)
  }

  lemma {:induction false} RangeInTurn(offset: nat, a: nat, b: nat)
    ensures RangeOf(offset, a + b) == RangeOf(RangeOf(offset, a), b)
  {
    if a > 0 { RangeInTurn(offset / 2, a - 1, b); }
  }

  lemma FewShifts(offset: nat)
    ensures RangeOf(offset, 2) == offset / 4 && RangeOf(offset, 3) == offset / 8
  {
    assert RangeOf(offset / 2 / 2, 1) == RangeOf(offset / 2 / 2 / 2, 0);
    assert RangeOf(offset / 2, 2) == RangeOf(offset / 2 / 2, 1);
    assert RangeOf(offset / 2, 1) == RangeOf(offset / 2 / 2, 0);
  }

  lemma FourShifts(offset: nat)
    ensures RangeOf(offset, 4) == offset / 16
  {
    hide RangeOf;
    RangeInTurn(offset, 2, 2);
    FewShifts(offset);
    FewShifts(offset / 4);
  }

  lemma PowerOfBase(offset: nat)
    ensures RangeOf(offset, FILTER_BASE_LG) == offset / FILTER_BASE
  {
    hide RangeOf;
    FourShifts(offset);
    FourShifts(offset / 16);
    FewShifts(offset / 16 / 16);
    RangeInTurn(offset, 4, 7);
    RangeInTurn(offset / 16, 4, 3);
  }

  /** What the end of a filter block tells. */
  lemma BlockLayout(c: Bytes, made: seq<seq<Bytes>>, create: seq<Bytes> -> Bytes)
    requires IsFilterBlock(c, made, create) && |Filters(made, create)| < 0x1_0000_0000
    ensures |c| == |Filters(made, create)| + 4 * |made| + 5 && c[|c| - 1] == FILTER_BASE_LG
    ensures DecodeFixed32(c[|c| - 5..]) == |Filters(made, create)| && (|c| - 5 - |Filters(made, create)|) / 4 == |made|
  {
    hide Filters, Fixed32s, EncodeFixed32, DecodeFixed32, OffsetOf;
    var ws, o := Offsets(made, create), OffsetOf(made, create, |made|);
    Fixed32sLength(ws);
    AllOffset(made, create);
    PartsOf(c, Filters(made, create), Fixed32s(ws), EncodeFixed32(o), |made|);
    StillThere(o, [FILTER_BASE_LG]);
  }

  lemma AllOffset(made: seq<seq<Bytes>>, create: seq<Bytes> -> Bytes)
    ensures |Filters(made, create)| < 0x1_0000_0000 ==> OffsetOf(made, create, |made|) == |Filters(made, create)|
  {
    hide Filters;
    assert made[..|made|] == made;
  }

  lemma PartsOf(c: Bytes, all: Bytes, offsets: Bytes, last: Bytes, n: nat)
    requires c == all + offsets + last + [FILTER_BASE_LG] && |offsets| == 4 * n && |last| == 4
    ensures |c| == |all| + 4 * n + 5 && c[|c| - 1] == FILTER_BASE_LG && c[|c| - 5..] == last + [FILTER_BASE_LG]
    ensures (|c| - 5 - |all|) / 4 == n
  {
  }

  lemma StillThere(w: Word, more: Bytes)
    ensures DecodeFixed32(EncodeFixed32(w) + more) == w
  {
    Fixed32RoundTrip(w);
  }

  lemma {:induction false} FiltersSplit(made: seq<seq<Bytes>>, create: seq<Bytes> -> Bytes, i: nat)
    requires i <= |made|
    ensures Filters(made[..i], create) <= Filters(made, create)
    decreases |made|
  {
    if i < |made| {
      FiltersSplit(made[..|made| - 1], create, i);
      assert made[..|made| - 1][..i] == made[..i];
    } else {
      assert made[..i] == made;
    }
  }

  lemma FilterBetween(c: Bytes, made: seq<seq<Bytes>>, create: seq<Bytes> -> Bytes, i: nat)
    requires i < |made| && Filters(made, create) <= c
    ensures var o, from, to := |Filters(made, create)|, |Filters(made[..i], create)|, |Filters(made[..i + 1], create)|;
      from <= to <= o && c[from..to] == FilterOf(made[i], create)
  {
    hide FilterOf;
    var all, before, upto := Filters(made, create), Filters(made[..i], create), Filters(made[..i + 1], create);
    FiltersSplit(made, create, i + 1);
    assert made[..i + 1][..i] == made[..i];
    assert upto == before + FilterOf(made[i], create);
    assert c[..|upto|] == all[..|upto|] == upto;
    assert c[|before|..|upto|] == c[..|upto|][|before|..];
  }

  /** Filter i stands between its offset and the next. */
  lemma FilterInBlock(c: Bytes, made: seq<seq<Bytes>>, create: seq<Bytes> -> Bytes, i: nat)
    requires IsFilterBlock(c, made, create) && |Filters(made, create)| < 0x1_0000_0000 && i < |made|
    ensures var o, from, to := |Filters(made, create)|, |Filters(made[..i], create)|, |Filters(made[..i + 1], create)|;
      o + 4 * i + 8 <= |c| && DecodeFixed32(c[o + i * 4..o + i * 4 + 4]) == from &&
      DecodeFixed32(c[o + i * 4 + 4..o + i * 4 + 8]) == to && from <= to <= o && c[from..to] == FilterOf(made[i], create)
  {
    hide Fixed32s, EncodeFixed32, DecodeFixed32, FilterOf, Filters;
    var ws, all := Offsets(made, create), Filters(made, create);
    FilterBetween(c, made, create, i);
    OffsetAt(c, all, ws, OffsetOf(made, create, |made|), i);
    OffsetAt(c, all, ws, OffsetOf(made, create, |made|), i + 1);
    assert made[..|made|] == made;
    assert ws[i] == OffsetOf(made, create, i);
    assert i + 1 < |ws| ==> ws[i + 1] == OffsetOf(made, create, i + 1);
  }

  /** The j-th offset, or after the last where offsets begin. */
  lemma OffsetAt(c: Bytes, all: Bytes, ws: seq<Word>, o: Word, j: nat)
    requires c == all + Fixed32s(ws) + EncodeFixed32(o) + [FILTER_BASE_LG] && j <= |ws|
    ensures |all| + 4 * j + 4 <= |c| && DecodeFixed32(c[|all| + j * 4..|all| + j * 4 + 4]) == if j < |ws| then ws[j] else o
  {
    hide Fixed32s, EncodeFixed32, DecodeFixed32;
    Fixed32sLength(ws);
    Regrouped(all, Fixed32s(ws), EncodeFixed32(o), [FILTER_BASE_LG]);
    if j < |ws| {
      WordOfMany(all, ws, EncodeFixed32(o), [FILTER_BASE_LG], j);
    } else {
      WordAfterMany(all, ws, o, [FILTER_BASE_LG]);
    }
  }

  lemma Regrouped(a: Bytes, b: Bytes, c: Bytes, d: Bytes)
    ensures a + b + c + d == a + (b + c) + d
  {
  }

  lemma WordOfMany(a: Bytes, ws: seq<Word>, b: Bytes, c: Bytes, j: nat)
    requires j < |ws| && |Fixed32s(ws)| == 4 * |ws|
    ensures var d := a + (Fixed32s(ws) + b) + c;
      |a| + 4 * j + 4 <= |d| && DecodeFixed32(d[|a| + j * 4..|a| + j * 4 + 4]) == ws[j]
  {
    hide Fixed32s, EncodeFixed32, DecodeFixed32;
    Fixed32At(ws, j);
    FirstPart(Fixed32s(ws), b, 4 * j);
    ReadWord(a, Fixed32s(ws) + b, c, 4 * j, ws[j]);
  }

  lemma WordAfterMany(a: Bytes, ws: seq<Word>, o: Word, c: Bytes)
    requires |Fixed32s(ws)| == 4 * |ws|
    ensures var d := a + (Fixed32s(ws) + EncodeFixed32(o)) + c;
      |a| + 4 * |ws| + 4 <= |d| && DecodeFixed32(d[|a| + |ws| * 4..|a| + |ws| * 4 + 4]) == o
  {
    hide Fixed32s, EncodeFixed32, DecodeFixed32;
    LastPart(Fixed32s(ws), EncodeFixed32(o));
    ReadWord(a, Fixed32s(ws) + EncodeFixed32(o), c, 4 * |ws|, o);
  }

  lemma FirstPart(a: Bytes, b: Bytes, i: nat)
    requires i + 4 <= |a|
    ensures (a + b)[i..i + 4] == a[i..i + 4]
  {
  }

  lemma LastPart(a: Bytes, b: Bytes)
    ensures (a + b)[|a|..|a| + |b|] == b
  {
  }

  /** The word at i of b, where b stands after a. */
  lemma ReadWord(a: Bytes, b: Bytes, c: Bytes, i: nat, w: Word)
    requires i + 4 <= |b| && b[i..i + 4] == EncodeFixed32(w)
    ensures |a| + i + 4 <= |a + b + c| && DecodeFixed32((a + b + c)[|a| + i..|a| + i + 4]) == w
  {
    hide EncodeFixed32, DecodeFixed32;
    assert (a + b + c)[|a| + i..|a| + i + 4] == b[i..i + 4];
    Fixed32RoundTrip(w);
  }

  /** No false negatives: what was added for a block matches for that block, and so does whatever is the same. */
  lemma AddedMatches(made: seq<seq<Bytes>>, create: seq<Bytes> -> Bytes, may: (Bytes, Bytes) -> bool, same: (Bytes, Bytes) -> bool,
                     t: Mark, key: Bytes)
    requires NeverMisses(create, may, same) && same(t.key, key)
    requires t.block / FILTER_BASE < |made| && t.key in made[t.block / FILTER_BASE]
    ensures may(key, FilterOf(made[t.block / FILTER_BASE], create))
  {
    assert made[t.block / FILTER_BASE] != [];
  }
}
