/** The cache's hash table: chains of handles in a power-of-two number of buckets. */
module HandleTables {
  import opened Keys

  /** A chained handle: its key, its hash, and which handle it is. */
  datatype Slot = Slot(key: string, hash: nat, id: nat)

  ghost predicate PowerOfTwo(n: nat) {
    n == 1 || (n > 1 && n % 2 == 0 && PowerOfTwo(n / 2))
  }

  ghost function SlotsIn(buckets: seq<seq<Slot>>): set<Slot> {
    set b, s | 0 <= b < |buckets| && s in buckets[b] :: s
  }

  /** Every slot is in the bucket its hash selects, and a chain holds a key once. */
  ghost predicate BucketsOk(buckets: seq<seq<Slot>>, hashOf: string -> nat) {
    |buckets| > 0 && forall b :: 0 <= b < |buckets| ==> ChainOk(buckets[b], b, |buckets|, hashOf)
  }

  ghost predicate ChainOk(chain: seq<Slot>, b: nat, length: nat, hashOf: string -> nat)
    requires length > 0
  {
    (forall s :: s in chain ==> s.hash == hashOf(s.key) && s.hash % length == b) &&
    forall i, j :: 0 <= i < j < |chain| ==> chain[i].key != chain[j].key
  }

  ghost predicate KeysOnce(s: set<Slot>) {
    forall x, y :: x in s && y in s && x.key == y.key ==> x == y
  }

  lemma BucketsHoldKeysOnce(buckets: seq<seq<Slot>>, hashOf: string -> nat)
    requires BucketsOk(buckets, hashOf)
    ensures KeysOnce(SlotsIn(buckets))
  {
    forall x, y | x in SlotsIn(buckets) && y in SlotsIn(buckets) && x.key == y.key ensures x == y {
      var b: nat :| 0 <= b < |buckets| && x in buckets[b];
      var c: nat :| 0 <= c < |buckets| && y in buckets[c];
      assert ChainOk(buckets[b], b, |buckets|, hashOf) && ChainOk(buckets[c], c, |buckets|, hashOf);
      var i :| 0 <= i < |buckets[b]| && buckets[b][i] == x;
      var j :| 0 <= j < |buckets[b]| && buckets[b][j] == y;
    }
  }

  /** Changing one chain changes the contents by what that chain gains and loses. */
  lemma ChainReplaced(buckets: seq<seq<Slot>>, b: nat, chain: seq<Slot>, hashOf: string -> nat)
    requires BucketsOk(buckets, hashOf) && b < |buckets| && ChainOk(chain, b, |buckets|, hashOf)
    ensures BucketsOk(buckets[b := chain], hashOf)
    ensures forall s :: s in SlotsIn(buckets[b := chain]) <==> (s in SlotsIn(buckets) && s !in buckets[b]) || s in chain
  {
    var r := buckets[b := chain];
    forall c | 0 <= c < |r| ensures ChainOk(r[c], c, |r|, hashOf) { assert ChainOk(buckets[c], c, |buckets|, hashOf); }
    forall s ensures s in SlotsIn(r) <==> (s in SlotsIn(buckets) && s !in buckets[b]) || s in chain {
      if s in SlotsIn(r) {
        var c :| 0 <= c < |r| && s in r[c];
        if c != b {
          assert s in buckets[c];
          assert ChainOk(buckets[c], c, |buckets|, hashOf) && ChainOk(buckets[b], b, |buckets|, hashOf);
        }
      }
      if s in SlotsIn(buckets) && s !in buckets[b] {
        var c :| 0 <= c < |buckets| && s in buckets[c];
        assert s in r[c];
      }
      if s in chain { assert s in r[b]; }
    }
  }

  lemma InChain(buckets: seq<seq<Slot>>, b: nat, i: nat)
    requires b < |buckets| && i < |buckets[b]|
    ensures buckets[b][i] in SlotsIn(buckets)
  {
    assert buckets[b][i] in buckets[b];
  }

  class HandleTable {
    const hashOf: string -> nat
    var buckets: seq<seq<Slot>>
    var elems: nat

    ghost predicate Valid()
      reads this
    {
      BucketsOk(buckets, hashOf) && PowerOfTwo(|buckets|) && elems == |Slots()| && elems <= |buckets|
    }

    ghost function Slots(): set<Slot>
      reads this
    {
      SlotsIn(buckets)
    }

    constructor (hashOf: string -> nat)
      ensures Valid() && Slots() == {} && this.hashOf == hashOf
    {
      this.hashOf := hashOf;
      elems := 0;
      buckets := seq(4, _ => []);
      assert PowerOfTwo(4 / 2 / 2) && PowerOfTwo(4 / 2) && PowerOfTwo(4);
    }

    lemma HoldsKeysOnce()
      requires Valid()
      ensures KeysOnce(Slots())
    {
      BucketsHoldKeysOnce(buckets, hashOf);
    }

    /** Where in its chain the key is, or the end of the chain. */
    method FindPointer(key: string, hash: nat) returns (b: nat, i: nat)
      requires BucketsOk(buckets, hashOf) && hash == hashOf(key)
      ensures |buckets| > 0 && b == hash % |buckets| && b < |buckets| && i <= |buckets[b]|
      ensures i < |buckets[b]| ==> buckets[b][i].key == key
      ensures forall j :: 0 <= j < |buckets[b]| && j != i ==> buckets[b][j].key != key
      ensures forall s :: s in Slots() && s.key == key ==> i < |buckets[b]| && s == buckets[b][i]
    {
      b := hash % |buckets|;
      i := 0;
      while i < |buckets[b]| && (buckets[b][i].hash != hash || buckets[b][i].key != key)
        invariant i <= |buckets[b]|
        invariant forall j :: 0 <= j < i ==> buckets[b][j].hash != hash || buckets[b][j].key != key
      {
        i := i + 1;
      }
      assert ChainOk(buckets[b], b, |buckets|, hashOf);
      OnlyInItsChain(buckets, hashOf, key, b, i);
    }

    method Lookup(key: string, hash: nat) returns (r: Option<nat>)
      requires Valid() && hash == hashOf(key)
      ensures forall id: nat :: r == Some(id) <==> Slot(key, hash, id) in Slots()
    {
      var b, i := FindPointer(key, hash);
      r := if i < |buckets[b]| then Some(buckets[b][i].id) else None;
      assert ChainOk(buckets[b], b, |buckets|, hashOf);
      if i < |buckets[b]| { InChain(buckets, b, i); }
    }

    /** Puts the handle in, in place of one with the same key, which is returned. */
    method Insert(h: Slot) returns (previous: Option<Slot>)
      requires Valid() && h.hash == hashOf(h.key) && h !in Slots()
      modifies this
      ensures Valid()
      ensures previous.None? ==> forall s :: s in old(Slots()) ==> s.key != h.key
      ensures previous.Some? ==> previous.value in old(Slots()) && previous.value.key == h.key
      ensures Slots() == (old(Slots()) - (if previous.Some? then {previous.value} else {})) + {h}
    {
      hide BucketsOk, ChainOk, SlotsIn, PowerOfTwo;
      ghost var all := Slots();
      var b, i := FindPointer(h.key, h.hash);
      if i < |buckets[b]| {
        previous := Some(buckets[b][i]);
        InChain(buckets, b, i);
        ReplaceInChain(buckets, b, i, h, hashOf);
        buckets := buckets[b := buckets[b][i := h]];
        SwapKeepsSize(all, previous.value, h);
      } else {
        previous := None;
        AppendToChain(buckets, b, h, hashOf);
        buckets := buckets[b := buckets[b] + [h]];
        elems := elems + 1;
        if elems > |buckets| {
          Resize();
        }
      }
    }

    method Remove(key: string, hash: nat) returns (r: Option<Slot>)
      requires Valid() && hash == hashOf(key)
      modifies this
      ensures Valid()
      ensures r.None? ==> Slots() == old(Slots()) && forall s :: s in Slots() ==> s.key != key
      ensures r.Some? ==> r.value in old(Slots()) && r.value.key == key && Slots() == old(Slots()) - {r.value}
    {
      hide BucketsOk, ChainOk, SlotsIn, PowerOfTwo;
      var b, i := FindPointer(key, hash);
      r := None;
      if i < |buckets[b]| {
        r := Some(buckets[b][i]);
        InChain(buckets, b, i);
        RemoveFromChain(buckets, b, i, hashOf);
        buckets := buckets[b := buckets[b][..i] + buckets[b][i + 1..]];
        elems := elems - 1;
      }
    }

    /** Rehashes every chain into enough buckets; the contents stay the same. */
    method Resize()
      requires BucketsOk(buckets, hashOf) && elems == |Slots()|
      modifies this`buckets
      ensures Valid() && Slots() == old(Slots())
    {
      hide BucketsOk, ChainOk, SlotsIn;
      var list := buckets;
      var newLength := 4;
      assert PowerOfTwo(4 / 2 / 2) && PowerOfTwo(4 / 2) && PowerOfTwo(4);
      while newLength < elems
        invariant newLength >= 4 && PowerOfTwo(newLength)
      {
        newLength := newLength * 2;
      }
      var newList: seq<seq<Slot>> := seq(newLength, _ => []);
      NothingMoved(newList, list, hashOf);
      for i := 0 to |list|
        invariant |newList| == newLength && BucketsOk(newList, hashOf)
        invariant Moved(newList, list, i, 0)
      {
        for j := 0 to |list[i]|
          invariant |newList| == newLength && BucketsOk(newList, hashOf)
          invariant Moved(newList, list, i, j)
        {
          var h := list[i][j];
          var b := h.hash % newLength;
          MoveOne(newList, list, i, j, hashOf);
          newList := newList[b := [h] + newList[b]];
        }
        NextChain(newList, list, i);
      }
      AllMoved(newList, list);
      buckets := newList;
    }
  }

  lemma HashInRange(hash: nat, length: nat)
    requires length > 0
    ensures hash % length < length
  {
  }

  lemma OnlyInItsChain(buckets: seq<seq<Slot>>, hashOf: string -> nat, key: string, b: nat, i: nat)
    requires BucketsOk(buckets, hashOf) && b == hashOf(key) % |buckets| && i <= |buckets[b]|
    requires i < |buckets[b]| ==> buckets[b][i].key == key
    requires i == |buckets[b]| ==> forall j :: 0 <= j < i ==> buckets[b][j].key != key
    ensures forall s :: s in SlotsIn(buckets) && s.key == key ==> i < |buckets[b]| && s == buckets[b][i]
  {
    forall s | s in SlotsIn(buckets) && s.key == key ensures i < |buckets[b]| && s == buckets[b][i] {
      var c: nat :| 0 <= c < |buckets| && s in buckets[c];
      assert ChainOk(buckets[c], c, |buckets|, hashOf);
      var j :| 0 <= j < |buckets[c]| && buckets[c][j] == s;
    }
  }

  lemma ReplaceInChain(buckets: seq<seq<Slot>>, b: nat, i: nat, h: Slot, hashOf: string -> nat)
    requires BucketsOk(buckets, hashOf) && b < |buckets| && i < |buckets[b]| && buckets[b][i].key == h.key
    requires h.hash == hashOf(h.key) && b == h.hash % |buckets| && h !in SlotsIn(buckets)
    ensures BucketsOk(buckets[b := buckets[b][i := h]], hashOf)
    ensures SlotsIn(buckets[b := buckets[b][i := h]]) == SlotsIn(buckets) - {buckets[b][i]} + {h}
  {
    hide BucketsOk, SlotsIn;
    var chain := buckets[b];
    BucketChain(buckets, b, hashOf);
    var r := chain[i := h];
    forall s ensures s in r <==> (s in chain && s != chain[i]) || s == h {
      if s in chain && s != chain[i] {
        var j :| 0 <= j < |chain| && chain[j] == s;
        assert r[j] == s;
      }
      assert r[i] == h;
    }
    ChainReplaced(buckets, b, r, hashOf);
    ChainInSlots(buckets, b);
    assert chain[i] in chain;
  }

  lemma AppendToChain(buckets: seq<seq<Slot>>, b: nat, h: Slot, hashOf: string -> nat)
    requires BucketsOk(buckets, hashOf) && b < |buckets| && forall s :: s in SlotsIn(buckets) ==> s.key != h.key
    requires h.hash == hashOf(h.key) && b == h.hash % |buckets|
    ensures BucketsOk(buckets[b := buckets[b] + [h]], hashOf)
    ensures SlotsIn(buckets[b := buckets[b] + [h]]) == SlotsIn(buckets) + {h}
  {
    hide BucketsOk, SlotsIn;
    BucketChain(buckets, b, hashOf);
    ChainInSlots(buckets, b);
    var chain := buckets[b];
    assert forall i :: 0 <= i < |chain| ==> chain[i] in chain;
    ChainReplaced(buckets, b, chain + [h], hashOf);
  }

  lemma PrependToChain(buckets: seq<seq<Slot>>, b: nat, h: Slot, hashOf: string -> nat)
    requires BucketsOk(buckets, hashOf) && b < |buckets| && forall s :: s in SlotsIn(buckets) ==> s.key != h.key
    requires h.hash == hashOf(h.key) && b == h.hash % |buckets|
    ensures BucketsOk(buckets[b := [h] + buckets[b]], hashOf)
    ensures SlotsIn(buckets[b := [h] + buckets[b]]) == SlotsIn(buckets) + {h}
  {
    hide BucketsOk, SlotsIn;
    BucketChain(buckets, b, hashOf);
    ChainInSlots(buckets, b);
    var chain := buckets[b];
    assert forall i :: 0 <= i < |chain| ==> chain[i] in chain;
    ChainReplaced(buckets, b, [h] + chain, hashOf);
  }

  lemma RemoveFromChain(buckets: seq<seq<Slot>>, b: nat, i: nat, hashOf: string -> nat)
    requires BucketsOk(buckets, hashOf) && b < |buckets| && i < |buckets[b]|
    ensures var r := buckets[b := buckets[b][..i] + buckets[b][i + 1..]];
      BucketsOk(r, hashOf) && SlotsIn(r) == SlotsIn(buckets) - {buckets[b][i]}
  {
    hide BucketsOk, SlotsIn;
    BucketChain(buckets, b, hashOf);
    ChainInSlots(buckets, b);
    var chain := buckets[b];
    var r := chain[..i] + chain[i + 1..];
    forall s ensures s in r <==> s in chain && s != chain[i] {
      if s in chain && s != chain[i] {
        var j :| 0 <= j < |chain| && chain[j] == s;
        assert r[if j < i then j else j - 1] == s;
      }
    }
    ChainReplaced(buckets, b, r, hashOf);
    assert chain[i] in chain;
  }

  lemma BucketChain(buckets: seq<seq<Slot>>, b: nat, hashOf: string -> nat)
    requires BucketsOk(buckets, hashOf) && b < |buckets|
    ensures ChainOk(buckets[b], b, |buckets|, hashOf)
  {
  }

  lemma ChainInSlots(buckets: seq<seq<Slot>>, b: nat)
    requires b < |buckets|
    ensures forall s :: s in buckets[b] ==> s in SlotsIn(buckets)
  {
  }

  lemma SwapKeepsSize(all: set<Slot>, x: Slot, h: Slot)
    requires x in all && h !in all
    ensures |all - {x} + {h}| == |all|
  {
  }

  // ------------------------------------------------------------ moving to new buckets

  /** newList holds the first i chains of the old list and j slots of the next. */
  ghost predicate Moved(newList: seq<seq<Slot>>, buckets: seq<seq<Slot>>, i: nat, j: nat) {
    forall s :: s in SlotsIn(newList) <==>
      (exists b :: 0 <= b < i && b < |buckets| && s in buckets[b]) || (i < |buckets| && j <= |buckets[i]| && s in buckets[i][..j])
  }

  lemma NothingMoved(newList: seq<seq<Slot>>, buckets: seq<seq<Slot>>, hashOf: string -> nat)
    requires |newList| > 0 && forall b :: 0 <= b < |newList| ==> newList[b] == []
    ensures BucketsOk(newList, hashOf) && Moved(newList, buckets, 0, 0)
  {
  }

  lemma MoveOne(newList: seq<seq<Slot>>, buckets: seq<seq<Slot>>, i: nat, j: nat, hashOf: string -> nat)
    requires BucketsOk(newList, hashOf) && BucketsOk(buckets, hashOf) && i < |buckets| && j < |buckets[i]|
    requires Moved(newList, buckets, i, j)
    ensures buckets[i][j].hash % |newList| < |newList|
    ensures var b := buckets[i][j].hash % |newList|; var r := newList[b := [buckets[i][j]] + newList[b]];
      BucketsOk(r, hashOf) && Moved(r, buckets, i, j + 1)
  {
    hide ChainOk;
    var h := buckets[i][j];
    forall s | s in SlotsIn(newList) ensures s.key != h.key { NotYetMoved(newList, buckets, i, j, hashOf, s); }
    BucketChain(buckets, i, hashOf);
    SlotHash(buckets[i], i, |buckets|, hashOf, h);
    HashInRange(h.hash, |newList|);
    PrependToChain(newList, h.hash % |newList|, h, hashOf);
    assert buckets[i][..j + 1] == buckets[i][..j] + [h];
  }

  lemma SlotHash(chain: seq<Slot>, b: nat, length: nat, hashOf: string -> nat, h: Slot)
    requires length > 0 && ChainOk(chain, b, length, hashOf) && h in chain
    ensures h.hash == hashOf(h.key)
  {
  }

  lemma NotYetMoved(newList: seq<seq<Slot>>, buckets: seq<seq<Slot>>, i: nat, j: nat, hashOf: string -> nat, s: Slot)
    requires BucketsOk(buckets, hashOf) && i < |buckets| && j < |buckets[i]| && Moved(newList, buckets, i, j)
    requires s in SlotsIn(newList)
    ensures s.key != buckets[i][j].key
  {
    assert ChainOk(buckets[i], i, |buckets|, hashOf);
    assert buckets[i][j] in buckets[i];
    if b: nat :| 0 <= b < i && s in buckets[b] {
      assert ChainOk(buckets[b], b, |buckets|, hashOf);
    } else {
      var k :| 0 <= k < j && buckets[i][..j][k] == s;
      assert buckets[i][k] == s;
    }
  }

  lemma NextChain(newList: seq<seq<Slot>>, buckets: seq<seq<Slot>>, i: nat)
    requires i < |buckets| && Moved(newList, buckets, i, |buckets[i]|)
    ensures Moved(newList, buckets, i + 1, 0)
  {
    assert buckets[i][..|buckets[i]|] == buckets[i];
  }

  lemma AllMoved(newList: seq<seq<Slot>>, buckets: seq<seq<Slot>>)
    requires Moved(newList, buckets, |buckets|, 0)
    ensures SlotsIn(newList) == SlotsIn(buckets)
  {
  }
}
