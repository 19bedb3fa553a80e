/** One shard of the LRU cache: reference counts, the two lists, the charge, and eviction. */
module LruCache {
  import opened Keys
  import opened HandleTables

  datatype Handle = Handle(key: string, hash: nat, value: string, charge: nat, inCache: bool, refs: nat)

  /** The allocated handles; the entries no client uses, oldest first; those in use; the charge of
      both; and the handles whose deleter has run, in order. */
  datatype Shard = Shard(handles: map<nat, Handle>, lru: seq<nat>, inUse: seq<nat>, usage: nat, deleted: seq<nat>, next: nat)

  // ------------------------------------------------------------ list operations

  /** LRU_Remove. */
  function Without(ids: seq<nat>, e: nat): seq<nat> {
    if ids == [] then []
    else Without(ids[..|ids| - 1], e) + if ids[|ids| - 1] == e then [] else [ids[|ids| - 1]]
  }

  ghost predicate NoRepeats(ids: seq<nat>) {
    forall i, j :: 0 <= i < j < |ids| ==> ids[i] != ids[j]
  }

  function ChargeOf(handles: map<nat, Handle>, e: nat): nat {
    if e in handles then handles[e].charge else 0
  }

  function Total(handles: map<nat, Handle>, ids: seq<nat>): nat {
    if ids == [] then 0 else Total(handles, ids[..|ids| - 1]) + ChargeOf(handles, ids[|ids| - 1])
  }

  lemma {:induction false} WithoutMembers(ids: seq<nat>, e: nat)
    requires NoRepeats(ids)
    ensures NoRepeats(Without(ids, e)) && forall x :: x in Without(ids, e) <==> x in ids && x != e
    ensures e !in ids ==> Without(ids, e) == ids
  {
    if ids != [] {
      var init, last := ids[..|ids| - 1], ids[|ids| - 1];
      assert ids == init + [last] && last !in init;
      WithoutMembers(init, e);
    }
  }

  lemma {:induction false} WithoutTotal(handles: map<nat, Handle>, ids: seq<nat>, e: nat)
    requires NoRepeats(ids)
    ensures Total(handles, ids) == Total(handles, Without(ids, e)) + if e in ids then ChargeOf(handles, e) else 0
  {
    hide ChargeOf, NoRepeats;
    if ids != [] {
      var n := |ids| - 1;
      var init, last := ids[..n], ids[n];
      LastApart(ids);
      WithoutTotal(handles, init, e);
      if last == e {
        assert Without(ids, e) == Without(init, e) + [];
        WithoutMembers(init, e);
        assert Without(ids, e) == init;
      } else {
        assert Without(ids, e) == Without(init, e) + [last];
        TotalAppend(handles, Without(init, e), last);
        assert e in ids <==> e in init;
      }
    }
  }

  lemma LastApart(ids: seq<nat>)
    requires NoRepeats(ids) && ids != []
    ensures var n := |ids| - 1; NoRepeats(ids[..n]) && ids[n] !in ids[..n] && ids == ids[..n] + [ids[n]]
  {
  }

  lemma TotalAppend(handles: map<nat, Handle>, ids: seq<nat>, e: nat)
    ensures Total(handles, ids + [e]) == Total(handles, ids) + ChargeOf(handles, e)
  {
    assert (ids + [e])[..|ids|] == ids;
  }

  lemma WithoutSpec(handles: map<nat, Handle>, ids: seq<nat>, e: nat)
    requires NoRepeats(ids)
    ensures NoRepeats(Without(ids, e)) && forall x :: x in Without(ids, e) <==> x in ids && x != e
    ensures e !in ids ==> Without(ids, e) == ids
    ensures Total(handles, ids) == Total(handles, Without(ids, e)) + if e in ids then ChargeOf(handles, e) else 0
  {
    hide Without, Total, NoRepeats;
    WithoutMembers(ids, e);
    WithoutTotal(handles, ids, e);
  }

  lemma AppendSpec(handles: map<nat, Handle>, ids: seq<nat>, e: nat)
    requires NoRepeats(ids) && e !in ids
    ensures NoRepeats(ids + [e]) && Total(handles, ids + [e]) == Total(handles, ids) + ChargeOf(handles, e)
  {
    assert (ids + [e])[..|ids|] == ids;
  }

  lemma {:induction false} SameCharges(h: map<nat, Handle>, h': map<nat, Handle>, ids: seq<nat>)
    requires forall e :: e in ids ==> ChargeOf(h, e) == ChargeOf(h', e)
    ensures Total(h, ids) == Total(h', ids)
  {
    if ids != [] { SameCharges(h, h', ids[..|ids| - 1]); }
  }

  lemma {:induction false} WithoutFirst(e: nat, ids: seq<nat>)
    requires NoRepeats([e] + ids)
    ensures Without([e] + ids, e) == ids
  {
    if ids == [] {
      assert ([e] + ids)[..0] == [] && [e] + ids == [e];
    } else {
      var n := |ids| - 1;
      var all := [e] + ids;
      assert all[..|all| - 1] == [e] + ids[..n] && all[|all| - 1] == ids[n] && all[0] == e;
      WithoutFirst(e, ids[..n]);
      assert ids == ids[..n] + [ids[n]];
    }
  }

  // ------------------------------------------------------------ reference counting

  function SetRefs(c: Shard, e: nat, refs: nat): Shard
    requires e in c.handles
  {
    c.(handles := c.handles[e := c.handles[e].(refs := refs)])
  }

  function Ref(c: Shard, e: nat): Shard
    requires e in c.handles
  {
    var h := c.handles[e];
    var d := if h.refs == 1 && h.inCache then c.(lru := Without(c.lru, e), inUse := Without(c.inUse, e) + [e]) else c;
    SetRefs(d, e, h.refs + 1)
  }

  function Unref(c: Shard, e: nat): Shard
    requires e in c.handles && c.handles[e].refs > 0
  {
    var h := c.handles[e];
    var refs := h.refs - 1;
    if refs == 0 then c.(handles := c.handles - {e}, deleted := c.deleted + [e])
    else
      var d := SetRefs(c, e, refs);
      if h.inCache && refs == 1 then d.(lru := Without(c.lru, e) + [e], inUse := Without(c.inUse, e)) else d
  }

  predicate Erasable(c: Shard, e: nat) {
    e in c.handles && c.handles[e].refs > 0 && c.handles[e].charge <= c.usage
  }

  /** Takes e, already out of the hash table, out of the cache. */
  function FinishErase(c: Shard, e: nat): Shard
    requires Erasable(c, e)
  {
    var h := c.handles[e];
    Unref(c.(lru := Without(c.lru, e), inUse := Without(c.inUse, e), handles := c.handles[e := h.(inCache := false)],
             usage := c.usage - h.charge), e)
  }

  // ------------------------------------------------------------ the invariant

  predicate Cached(c: Shard, e: nat) {
    e in c.handles && c.handles[e].inCache
  }

  ghost function CachedSlots(c: Shard): set<Slot> {
    set e | e in c.handles && c.handles[e].inCache :: Slot(c.handles[e].key, c.handles[e].hash, e)
  }

  /** References are the clients' handles and the cache's own; a handle without any is gone. */
  ghost predicate RefsOk(c: Shard, held: multiset<nat>) {
    (forall e :: e in c.handles ==>
      c.handles[e].refs == held[e] + (if c.handles[e].inCache then 1 else 0) && c.handles[e].refs > 0) &&
    forall e :: e in held ==> e in c.handles
  }

  /** An entry in the cache is on exactly one list: lru if only the cache refers to it. */
  ghost predicate ListsOk(c: Shard) {
    NoRepeats(c.lru) && NoRepeats(c.inUse) &&
    (forall e :: e in c.lru <==> Cached(c, e) && c.handles[e].refs == 1) &&
    (forall e :: e in c.inUse <==> Cached(c, e) && c.handles[e].refs >= 2) &&
    c.usage == Total(c.handles, c.lru) + Total(c.handles, c.inUse)
  }

  /** Every handle ever made is either allocated or has had its deleter run, once. */
  ghost predicate LifeOk(c: Shard) {
    NoRepeats(c.deleted) && (forall e :: e in c.deleted ==> e < c.next) &&
    (forall e :: e in c.handles ==> e < c.next && e !in c.deleted) &&
    forall e :: 0 <= e < c.next ==> e in c.handles || e in c.deleted
  }

  ghost predicate Ok(c: Shard, held: multiset<nat>) {
    RefsOk(c, held) && ListsOk(c) && LifeOk(c)
  }

  // ------------------------------------------------------------ what each operation keeps

  /** The lists once e has moved: off both, and onto the one its references call for. */
  ghost predicate ListsMoved(c: Shard, d: Shard, e: nat) {
    d.lru == Without(c.lru, e) + (if Cached(d, e) && d.handles[e].refs == 1 then [e] else []) &&
    d.inUse == Without(c.inUse, e) + (if Cached(d, e) && d.handles[e].refs >= 2 then [e] else [])
  }

  ghost predicate OnlyChanges(c: Shard, d: Shard, e: nat) {
    forall x :: x != e ==> (x in d.handles <==> x in c.handles) && (x in c.handles ==> d.handles[x] == c.handles[x])
  }

  lemma MovedKeepsLists(c: Shard, d: Shard, e: nat)
    requires ListsOk(c) && OnlyChanges(c, d, e) && ListsMoved(c, d, e)
    requires Cached(d, e) ==> d.handles[e].refs >= 1
    requires d.usage == c.usage - (if Cached(c, e) then ChargeOf(c.handles, e) else 0) + (if Cached(d, e) then ChargeOf(d.handles, e) else 0)
    requires Cached(c, e) ==> c.handles[e].refs >= 1
    ensures ListsOk(d)
  {
    hide Without, Total;
    WithoutSpec(c.handles, c.lru, e);
    WithoutSpec(c.handles, c.inUse, e);
    AppendSpec(d.handles, Without(c.lru, e), e);
    AppendSpec(d.handles, Without(c.inUse, e), e);
    SameCharges(c.handles, d.handles, Without(c.lru, e));
    SameCharges(c.handles, d.handles, Without(c.inUse, e));
    assert Without(c.lru, e) + [] == Without(c.lru, e) && Without(c.inUse, e) + [] == Without(c.inUse, e);
  }

  /** e keeps its place when it is not, and does not become, an entry of another list. */
  lemma SameLists(c: Shard, d: Shard, e: nat)
    requires ListsOk(c) && OnlyChanges(c, d, e) && d.lru == c.lru && d.inUse == c.inUse && d.usage == c.usage
    requires Cached(d, e) <==> Cached(c, e)
    requires Cached(c, e) ==> c.handles[e].refs >= 2 && d.handles[e].refs >= 2 && c.handles[e].charge == d.handles[e].charge
    ensures ListsOk(d)
  {
    hide Total;
    SameCharges(c.handles, d.handles, c.lru);
    SameCharges(c.handles, d.handles, c.inUse);
  }

  lemma LifeAfter(c: Shard, d: Shard, e: nat)
    requires LifeOk(c) && e in c.handles && OnlyChanges(c, d, e) && d.next == c.next
    requires d.deleted == if e in d.handles then c.deleted else c.deleted + [e]
    ensures LifeOk(d)
  {
  }

  lemma RefsAfter(c: Shard, d: Shard, e: nat, held: multiset<nat>, held': multiset<nat>)
    requires RefsOk(c, held) && OnlyChanges(c, d, e) && forall x :: x != e ==> held'[x] == held[x]
    requires if e in d.handles then d.handles[e].refs == held'[e] + (if d.handles[e].inCache then 1 else 0) > 0 else held'[e] == 0
    ensures RefsOk(d, held')
  {
    assert forall x :: x in held' && x != e ==> x in held;
  }

  /** What an operation on e leaves of the other handles. */
  lemma Changes(c: Shard, e: nat)
    requires e in c.handles
    ensures OnlyChanges(c, Ref(c, e), e)
    ensures c.handles[e].refs > 0 ==> OnlyChanges(c, Unref(c, e), e)
    ensures c.handles[e].refs > 0 && c.handles[e].charge <= c.usage ==> OnlyChanges(c, FinishErase(c, e), e)
  {
    RefChanges(c, e);
    if c.handles[e].refs > 0 {
      UnrefChanges(c, e);
      if c.handles[e].charge <= c.usage { EraseChanges(c, e); }
    }
  }

  lemma RefChanges(c: Shard, e: nat)
    requires e in c.handles
    ensures OnlyChanges(c, Ref(c, e), e)
  {
    hide Without;
  }

  lemma UnrefChanges(c: Shard, e: nat)
    requires e in c.handles && c.handles[e].refs > 0
    ensures OnlyChanges(c, Unref(c, e), e)
  {
    hide Without;
  }

  lemma EraseChanges(c: Shard, e: nat)
    requires e in c.handles && c.handles[e].refs > 0 && c.handles[e].charge <= c.usage
    ensures OnlyChanges(c, FinishErase(c, e), e)
  {
    hide Without;
  }

  lemma RefKeeps(c: Shard, held: multiset<nat>, e: nat)
    requires Ok(c, held) && e in c.handles
    ensures Ok(Ref(c, e), held + multiset{e}) && CachedSlots(Ref(c, e)) == CachedSlots(c)
    ensures OnlyChanges(c, Ref(c, e), e)
  {
    hide Without, Total, ListsOk, RefsOk, LifeOk, OnlyChanges;
    Changes(c, e);
    HeldRefs(c, held, e);
    var d, h := Ref(c, e), c.handles[e];
    LifeAfter(c, d, e);
    RefsAfter(c, d, e, held, held + multiset{e});
    if h.refs == 1 && h.inCache {
      assert Without(c.lru, e) + [] == Without(c.lru, e);
      MovedKeepsLists(c, d, e);
    } else {
      SameLists(c, d, e);
    }
    SlotsKept(c, d, e);
  }

  lemma HeldRefs(c: Shard, held: multiset<nat>, e: nat)
    requires RefsOk(c, held) && (e in c.handles || e in held)
    ensures e in c.handles && c.handles[e].refs == held[e] + (if c.handles[e].inCache then 1 else 0) && c.handles[e].refs > 0
  {
  }

  lemma NotDeleted(c: Shard, e: nat)
    requires LifeOk(c) && e in c.handles
    ensures e !in c.deleted
  {
  }

  lemma SlotsKept(c: Shard, d: Shard, e: nat)
    requires OnlyChanges(c, d, e) && (Cached(c, e) <==> Cached(d, e))
    requires Cached(c, e) ==> c.handles[e].key == d.handles[e].key && c.handles[e].hash == d.handles[e].hash
    ensures CachedSlots(c) == CachedSlots(d)
  {
    forall s ensures s in CachedSlots(c) <==> s in CachedSlots(d) {
      assert s in CachedSlots(c) <==> Cached(c, s.id) && s == Slot(c.handles[s.id].key, c.handles[s.id].hash, s.id);
      assert s in CachedSlots(d) <==> Cached(d, s.id) && s == Slot(d.handles[s.id].key, d.handles[s.id].hash, s.id);
    }
  }

  lemma UnrefKeeps(c: Shard, held: multiset<nat>, e: nat)
    requires Ok(c, held) && e in held
    ensures c.handles[e].refs > 0
    ensures Ok(Unref(c, e), held - multiset{e}) && CachedSlots(Unref(c, e)) == CachedSlots(c)
    ensures e in Unref(c, e).deleted <==> held[e] == 1 && !c.handles[e].inCache
  {
    hide Without, Total, ListsOk, RefsOk, LifeOk, OnlyChanges;
    HeldRefs(c, held, e);
    Changes(c, e);
    NotDeleted(c, e);
    var d, h := Unref(c, e), c.handles[e];
    LifeAfter(c, d, e);
    RefsAfter(c, d, e, held, held - multiset{e});
    SlotsKept(c, d, e);
    if h.refs == 2 && h.inCache {
      assert Without(c.inUse, e) + [] == Without(c.inUse, e);
      MovedKeepsLists(c, d, e);
    } else {
      SameLists(c, d, e);
    }
  }

  lemma FinishEraseKeeps(c: Shard, held: multiset<nat>, e: nat)
    requires Ok(c, held) && Cached(c, e)
    ensures c.handles[e].refs > 0 && c.handles[e].charge <= c.usage
    ensures var d := FinishErase(c, e);
      Ok(d, held) && !Cached(d, e) && d.lru == Without(c.lru, e) && d.usage == c.usage - c.handles[e].charge &&
      CachedSlots(d) == CachedSlots(c) - {Slot(c.handles[e].key, c.handles[e].hash, e)} && OnlyChanges(c, d, e)
    ensures e in FinishErase(c, e).deleted <==> held[e] == 0
  {
    hide Without, Total, ListsOk, RefsOk, LifeOk, OnlyChanges, CachedSlots;
    HeldRefs(c, held, e);
    EntryCharge(c, e);
    Changes(c, e);
    NotDeleted(c, e);
    var d := FinishErase(c, e);
    LifeAfter(c, d, e);
    RefsAfter(c, d, e, held, held);
    assert Without(c.inUse, e) + [] == Without(c.inUse, e) && Without(c.lru, e) + [] == Without(c.lru, e);
    MovedKeepsLists(c, d, e);
    FinishEraseSlots(c, d, e);
  }

  lemma FinishEraseSlots(c: Shard, d: Shard, e: nat)
    requires Cached(c, e) && !Cached(d, e) && OnlyChanges(c, d, e)
    ensures CachedSlots(d) == CachedSlots(c) - {Slot(c.handles[e].key, c.handles[e].hash, e)}
  {
  }

  lemma EntryCharge(c: Shard, e: nat)
    requires ListsOk(c) && Cached(c, e) && c.handles[e].refs > 0
    ensures c.handles[e].charge <= c.usage
  {
    hide Total, Without;
    WithoutSpec(c.handles, c.lru, e);
    WithoutSpec(c.handles, c.inUse, e);
  }

  // ------------------------------------------------------------ inserting

  /** The handle Insert makes: referred to by the caller, and by the cache when it keeps it. */
  function NewEntry(c: Shard, key: string, hash: nat, value: string, charge: nat, keep: bool): Shard {
    var h := Handle(key, hash, value, charge, keep, if keep then 2 else 1);
    var d := c.(handles := c.handles[c.next := h], next := c.next + 1);
    if keep then d.(inUse := c.inUse + [c.next], usage := c.usage + charge) else d
  }

  lemma NewEntryKeeps(c: Shard, held: multiset<nat>, key: string, hash: nat, value: string, charge: nat, keep: bool)
    requires Ok(c, held)
    ensures var d := NewEntry(c, key, hash, value, charge, keep);
      Ok(d, held + multiset{c.next}) && d.lru == c.lru && OnlyChanges(c, d, c.next) &&
      CachedSlots(d) == CachedSlots(c) + if keep then {Slot(key, hash, c.next)} else {}
  {
    hide Total, RefsOk, OnlyChanges, CachedSlots;
    var d, e := NewEntry(c, key, hash, value, charge, keep), c.next;
    NewEntryCounts(c, held, d);
    SameCharges(c.handles, d.handles, c.lru);
    SameCharges(c.handles, d.handles, c.inUse);
    AppendSpec(d.handles, c.inUse, e);
  }

  lemma NewEntryCounts(c: Shard, held: multiset<nat>, d: Shard)
    requires Ok(c, held) && c.next in d.handles && d.handles == c.handles[c.next := d.handles[c.next]]
    requires d.handles[c.next].refs == if d.handles[c.next].inCache then 2 else 1
    ensures RefsOk(d, held + multiset{c.next}) && OnlyChanges(c, d, c.next)
    ensures var h := d.handles[c.next];
      CachedSlots(d) == CachedSlots(c) + if h.inCache then {Slot(h.key, h.hash, c.next)} else {}
  {
    hide ListsOk, CachedSlots;
    assert held[c.next] == 0 && c.next !in c.handles;
    NewEntrySlots(c, d, c.next);
  }

  lemma NewEntrySlots(c: Shard, d: Shard, e: nat)
    requires e !in c.handles && e in d.handles && OnlyChanges(c, d, e)
    ensures var h := d.handles[e]; CachedSlots(d) == CachedSlots(c) + if h.inCache then {Slot(h.key, h.hash, e)} else {}
  {
    var h := d.handles[e];
    forall s ensures s in CachedSlots(d) <==> s in CachedSlots(c) || (h.inCache && s == Slot(h.key, h.hash, e)) {
      assert s in CachedSlots(d) <==> Cached(d, s.id) && s == Slot(d.handles[s.id].key, d.handles[s.id].hash, s.id);
      assert s in CachedSlots(c) <==> Cached(c, s.id) && s == Slot(c.handles[s.id].key, c.handles[s.id].hash, s.id);
    }
  }

  /** The entries of a list that have another key. */
  function Others(c: Shard, ids: seq<nat>, key: string): seq<nat> {
    if ids == [] then []
    else
      var last := ids[|ids| - 1];
      Others(c, ids[..|ids| - 1], key) + if last in c.handles && c.handles[last].key == key then [] else [last]
  }

  lemma {:induction false} OthersIsWithout(c: Shard, ids: seq<nat>, key: string, p: nat)
    requires forall e :: e in ids ==> e in c.handles && (c.handles[e].key == key <==> e == p)
    ensures Others(c, ids, key) == Without(ids, p)
  {
    if ids != [] { OthersIsWithout(c, ids[..|ids| - 1], key, p); }
  }

  /** The oldest k unused entries were evicted, and no more than it took to get within capacity. */
  ghost predicate EvictsOldest(c: Shard, base: seq<nat>, d: Shard, capacity: nat, k: nat) {
    k <= |base| && d.lru == base[k..] && (k > 0 ==> d.usage + ChargeOf(c.handles, base[k - 1]) > capacity)
  }

  /** c after its k oldest unused entries have been evicted, one by one. */
  ghost function Evicted(c: Shard, k: nat): Shard {
    if k == 0 then c
    else
      var d := Evicted(c, k - 1);
      if d.lru != [] && Erasable(d, d.lru[0]) then FinishErase(d, d.lru[0]) else d
  }

  lemma NothingEvicted(c: Shard)
    ensures Evicted(c, 0) == c
  {
  }

  lemma EvictedStep(c: Shard, k: nat, d: Shard, e: Shard)
    requires d == Evicted(c, k) && d.lru != [] && Erasable(d, d.lru[0]) && e == FinishErase(d, d.lru[0])
    ensures e == Evicted(c, k + 1)
  {
  }

  lemma FirstIsCached(c: Shard, held: multiset<nat>)
    requires Ok(c, held) && c.lru != []
    ensures Cached(c, c.lru[0]) && c.handles[c.lru[0]].refs == 1 && held[c.lru[0]] == 0
    ensures Without(c.lru, c.lru[0]) == c.lru[1..] && NoRepeats(c.lru)
  {
    hide Without;
    assert c.lru[0] in c.lru && [c.lru[0]] + c.lru[1..] == c.lru;
    WithoutFirst(c.lru[0], c.lru[1..]);
  }

  lemma SlotOfCached(c: Shard, e: nat)
    requires Cached(c, e)
    ensures Slot(c.handles[e].key, c.handles[e].hash, e) in CachedSlots(c)
  {
  }

  lemma CachedOfSlot(c: Shard, s: Slot)
    requires s in CachedSlots(c)
    ensures Cached(c, s.id) && s == Slot(c.handles[s.id].key, c.handles[s.id].hash, s.id)
  {
  }

  /** Hashes are those of the keys. */
  ghost predicate HashesOk(c: Shard, hashOf: string -> nat) {
    forall e :: e in c.handles ==> c.handles[e].hash == hashOf(c.handles[e].key)
  }

  lemma HashesStay(c: Shard, d: Shard, e: nat, hashOf: string -> nat)
    requires HashesOk(c, hashOf) && OnlyChanges(c, d, e)
    requires e in d.handles ==> d.handles[e].hash == hashOf(d.handles[e].key)
    ensures HashesOk(d, hashOf)
  {
  }

  class Cache {
    const capacity: nat
    const table: HandleTable
    var c: Shard
    /** The handles clients have been given and not yet released. */
    ghost var held: multiset<nat>

    ghost predicate Valid()
      reads this, table
    {
      table.Valid() && Ok(c, held) && table.Slots() == CachedSlots(c) && HashesOk(c, table.hashOf)
    }

    constructor (capacity: nat, hashOf: string -> nat)
      ensures Valid() && held == multiset{} && c.usage == 0 && this.capacity == capacity && fresh(table)
    {
      hide Ok, CachedSlots, HashesOk;
      this.capacity := capacity;
      table := new HandleTable(hashOf);
      c := Shard(map[], [], [], 0, [], 0);
      held := multiset{};
      EmptyIsOk(Shard(map[], [], [], 0, [], 0), hashOf);
    }

    /** The entry with the key, with one more reference to it. */
    method Lookup(key: string, hash: nat) returns (r: Option<nat>)
      requires Valid() && hash == table.hashOf(key)
      modifies this
      ensures Valid() && c.deleted == old(c.deleted) && c.usage == old(c.usage)
      ensures r.None? ==> c == old(c) && held == old(held) && forall e :: Cached(c, e) ==> c.handles[e].key != key
      ensures r.Some? ==> Cached(c, r.value) && c.handles[r.value].key == key && held == old(held) + multiset{r.value}
      ensures r.Some? ==> r.value in old(c.handles) && c == Ref(old(c), r.value)
    {
      hide Ok, CachedSlots, OnlyChanges, HashesOk;
      r := table.Lookup(key, hash);
      if r.Some? {
        CachedOfSlot(c, Slot(key, hash, r.value));
        RefKeeps(c, held, r.value);
        HashesStay(c, Ref(c, r.value), r.value, table.hashOf);
        c := Ref(c, r.value);
        held := held + multiset{r.value};
      } else {
        NoneCached(c, table.hashOf, key, table.Slots());
      }
    }

    /** A client gives its handle back; the deleter runs when nobody refers to the entry any more. */
    method Release(e: nat)
      requires Valid() && e in held
      modifies this
      ensures Valid() && held == old(held) - multiset{e} && c.usage == old(c.usage)
      ensures c.deleted == old(c.deleted) + (if old(held[e]) == 1 && !old(Cached(c, e)) then [e] else [])
      ensures e in old(c.handles) && old(c.handles[e]).refs > 0 && c == Unref(old(c), e)
    {
      hide Ok, CachedSlots, OnlyChanges, HashesOk;
      UnrefKeeps(c, held, e);
      HeldInOk(c, held, e);
      Changes(c, e);
      HashIs(c, table.hashOf, e);
      HashesStay(c, Unref(c, e), e, table.hashOf);
      c := Unref(c, e);
      held := held - multiset{e};
    }

    /** Takes out the entry whose slot has just left the table. */
    method FinishEraseOf(e: nat)
      requires table.Valid() && Ok(c, held) && HashesOk(c, table.hashOf) && Cached(c, e)
      requires table.Slots() == CachedSlots(c) - {Slot(c.handles[e].key, c.handles[e].hash, e)}
      modifies this`c
      ensures Valid() && !Cached(c, e) && OnlyChanges(old(c), c, e)
      ensures c.lru == Without(old(c.lru), e) && c.usage == old(c.usage) - old(c.handles[e].charge)
      ensures e in c.deleted <==> held[e] == 0
      ensures old(c.deleted) <= c.deleted && Erasable(old(c), e) && c == FinishErase(old(c), e)
    {
      hide Ok, CachedSlots, HashesOk, Without, FinishErase, HandleTable.Valid;
      DeletedGrows(c, e);
      FinishEraseKeeps(c, held, e);
      HashIs(c, table.hashOf, e);
      ErasedHash(c, e, table.hashOf);
      HashesStay(c, FinishErase(c, e), e, table.hashOf);
      c := FinishErase(c, e);
    }

    /** Takes the oldest unused entry out of the table and out of the cache; its deleter runs. */
    method EvictOldest()
      requires Valid() && c.lru != []
      modifies this`c, table
      ensures Valid() && OnlyChanges(old(c), c, old(c.lru[0])) && c.lru == old(c.lru)[1..] && old(c.lru[0]) in c.deleted
      ensures c.usage == old(c.usage) - ChargeOf(old(c.handles), old(c.lru[0])) && old(c.deleted) <= c.deleted
      ensures Erasable(old(c), old(c.lru[0])) && c == FinishErase(old(c), old(c.lru[0]))
    {
      hide Ok, CachedSlots, HashesOk, Without, OnlyChanges, KeysOnce, NoRepeats, FinishErase, HandleTable.Valid;
      var e := c.lru[0];
      FirstIsCached(c, held);
      HashIs(c, table.hashOf, e);
      SlotOfCached(c, e);
      table.HoldsKeysOnce();
      var r := table.Remove(c.handles[e].key, c.handles[e].hash);
      RemovedIs(c, table.hashOf, e, r);
      FinishEraseOf(r.value.id);
    }

    /** Evicts unused entries, oldest first, while the cache is over its capacity. */
    method Evict() returns (ghost k: nat)
      requires Valid()
      modifies this`c, table
      ensures Valid() && (c.usage <= capacity || c.lru == [])
      ensures EvictsOldest(old(c), old(c.lru), c, capacity, k) && c == Evicted(old(c), k)
      ensures forall e :: e in old(held) ==> e in c.handles && e in old(c.handles) && c.handles[e] == old(c.handles)[e]
    {
      hide Ok, CachedSlots, HashesOk, Without, OnlyChanges, ChargeOf, FinishErase, Evicted, Erasable, HandleTable.Valid;
      k := 0;
      NothingEvicted(c);
      HeldStay(c, held);
      while c.usage > capacity && c.lru != []
        invariant Valid() && EvictsOldest(old(c), old(c.lru), c, capacity, k) && c == Evicted(old(c), k)
        invariant forall e :: e in held ==> e in c.handles && e in old(c.handles) && c.handles[e] == old(c.handles)[e]
        invariant forall e :: e in c.lru ==> ChargeOf(c.handles, e) == ChargeOf(old(c.handles), e)
        decreases |c.lru|
      {
        ghost var before := c;
        FirstIsCached(c, held);
        assert c.lru[0] in c.lru;
        EvictOldest();
        EvictedStep(old(c), k, before, c);
        k := k + 1;
        EvictedOne(before, c, before.lru[0], held);
      }
    }

    /** Makes an entry and caches it, in place of one with the same key; then evicts what is too much. */
    method Insert(key: string, hash: nat, value: string, charge: nat) returns (e: nat, ghost k: nat, ghost mid: Shard)
      requires Valid() && hash == table.hashOf(key)
      modifies this, table
      ensures Valid() && (c.usage <= capacity || c.lru == []) && held == old(held) + multiset{e}
      ensures e in c.handles && c.handles[e] == Handle(key, hash, value, charge, capacity > 0, if capacity > 0 then 2 else 1)
      ensures e == old(c.next) && forall x :: x != e && Cached(c, x) && capacity > 0 ==> c.handles[x].key != key
      ensures EvictsOldest(old(c), if capacity > 0 then Others(old(c), old(c.lru), key) else old(c.lru), c, capacity, k)
      ensures c == Evicted(mid, k) && Replaces(old(c), NewEntry(old(c), key, hash, value, charge, capacity > 0), mid, key, capacity > 0)
    {
      hide Ok, CachedSlots, HashesOk, Without, OnlyChanges, KeysOnce, Others, ChargeOf, NewEntry, FinishErase, Evicted,
        Replaces, HandleTable.Valid;
      NothingReplaced(c, NewEntry(c, key, hash, value, charge, false), key);
      ghost var before := c;
      e := c.next;
      NewEntryKeeps(c, held, key, hash, value, charge, capacity > 0);
      NewEntryHash(c, key, hash, value, charge, capacity > 0, table.hashOf);
      NewEntryIs(c, key, hash, value, charge, capacity > 0);
      c := NewEntry(c, key, hash, value, charge, capacity > 0);
      held := held + multiset{e};
      assert held - multiset{e} == old(held);
      if capacity > 0 {
        ReplacePrevious(before, e, key, hash);
      } else {
        ChargesKept(before, old(held), c, e);
      }
      mid := c;
      k := Evict();
      if capacity > 0 {
        table.HoldsKeysOnce();
        KeyCachedOnce(c, e, key);
      }
    }

    /** Puts the new entry into the table, and takes out the one it replaces. */
    method ReplacePrevious(ghost before: Shard, e: nat, key: string, hash: nat)
      requires table.Valid() && Ok(c, held) && HashesOk(c, table.hashOf) && hash == table.hashOf(key)
      requires Ok(before, held - multiset{e}) && before.next == e && c.lru == before.lru && OnlyChanges(before, c, e)
      requires e in held && Cached(c, e) && c.handles[e].key == key && c.handles[e].hash == hash
      requires table.Slots() == CachedSlots(before) && CachedSlots(c) == CachedSlots(before) + {Slot(key, hash, e)}
      modifies this`c, table
      ensures Valid() && e in c.handles && c.handles[e] == old(c.handles[e])
      ensures c.lru == Others(before, before.lru, key) && Replaces(before, old(c), c, key, true)
      ensures forall x :: x in c.lru ==> ChargeOf(c.handles, x) == ChargeOf(before.handles, x)
    {
      hide Ok, CachedSlots, HashesOk, Without, KeysOnce, Others, ChargeOf, FinishErase, Erasable, HandleTable.Valid;
      var h := Slot(key, hash, e);
      NewIsNotCached(before, held - multiset{e}, h);
      table.HoldsKeysOnce();
      var previous := table.Insert(h);
      if previous.Some? {
        var p := previous.value.id;
        CachedOfSlot(before, previous.value);
        assert p != e && c.handles[p] == before.handles[p];
        ReplacedSlots(CachedSlots(before), h, previous.value);
        OthersFound(before, held - multiset{e}, key, p);
        KeyCachedOnce(before, p, key);
        FinishEraseOf(p);
        ChargesKeptTwice(before, held - multiset{e}, c, e, p);
      } else {
        OthersAbsent(before, held - multiset{e}, key);
        NoneWithKey(before, key);
        ChargesKept(before, held - multiset{e}, c, e);
      }
    }

    method Erase(key: string, hash: nat)
      requires Valid() && hash == table.hashOf(key)
      modifies this`c, table
      ensures Valid() && forall e :: Cached(c, e) ==> c.handles[e].key != key
      ensures (forall e :: Cached(old(c), e) ==> old(c).handles[e].key != key) ==> c == old(c)
      ensures forall e :: Cached(old(c), e) && old(c).handles[e].key == key ==> Erasable(old(c), e) && c == FinishErase(old(c), e)
    {
      hide Ok, CachedSlots, HashesOk, Without, OnlyChanges, KeysOnce, FinishErase, Erasable, HandleTable.Valid;
      table.HoldsKeysOnce();
      var r := table.Remove(key, hash);
      if r.Some? {
        CachedOfSlot(c, r.value);
        KeyCachedOnce(c, r.value.id, key);
        ghost var before := c;
        FinishEraseOf(r.value.id);
        StillOthers(before, c, r.value.id, key);
      } else {
        NoneWithKey(c, key);
      }
    }

    /** Evicts every entry no client uses. */
    method Prune()
      requires Valid()
      modifies this`c, table
      ensures Valid() && c.lru == [] && c == Evicted(old(c), |old(c.lru)|)
      ensures forall e :: e in old(c.lru) ==> e in c.deleted
    {
      hide Ok, CachedSlots, HashesOk, OnlyChanges, FinishErase, Evicted, Erasable, HandleTable.Valid;
      NothingEvicted(c);
      ghost var all := c.lru;
      assert all[0..] == all;
      ghost var k := 0;
      while c.lru != []
        invariant Valid() && k <= |all| && c.lru == all[k..] && c == Evicted(old(c), k)
        invariant forall i :: 0 <= i < k ==> all[i] in c.deleted
        decreases |c.lru|
      {
        ghost var before := c;
        EvictOldest();
        EvictedStep(old(c), k, before, c);
        k := k + 1;
      }
    }
  }

  /** d is c, without what was cached before under the key if the cache keeps entries. */
  ghost predicate Replaces(before: Shard, c: Shard, d: Shard, key: string, keep: bool) {
    (keep ==> forall p :: Cached(before, p) && before.handles[p].key == key ==> Erasable(c, p) && d == FinishErase(c, p)) &&
    (!keep || (forall p :: Cached(before, p) ==> before.handles[p].key != key) ==> d == c)
  }

  lemma NothingReplaced(before: Shard, c: Shard, key: string)
    ensures Replaces(before, c, c, key, false)
  {
  }

  lemma NewEntryIs(c: Shard, key: string, hash: nat, value: string, charge: nat, keep: bool)
    ensures var d := NewEntry(c, key, hash, value, charge, keep);
      c.next in d.handles && d.handles[c.next] == Handle(key, hash, value, charge, keep, if keep then 2 else 1)
  {
  }

  lemma NewEntryHash(c: Shard, key: string, hash: nat, value: string, charge: nat, keep: bool, hashOf: string -> nat)
    requires HashesOk(c, hashOf) && hash == hashOf(key)
    ensures HashesOk(NewEntry(c, key, hash, value, charge, keep), hashOf)
  {
  }

  lemma NewIsNotCached(c: Shard, held: multiset<nat>, h: Slot)
    requires Ok(c, held) && h.id == c.next
    ensures h !in CachedSlots(c) && c.next !in c.handles
  {
  }

  lemma ReplacedSlots(s: set<Slot>, h: Slot, p: Slot)
    requires p in s && h !in s
    ensures (s - {p}) + {h} == (s + {h}) - {p}
  {
  }

  lemma OthersFound(c: Shard, held: multiset<nat>, key: string, p: nat)
    requires Ok(c, held) && KeysOnce(CachedSlots(c)) && Cached(c, p) && c.handles[p].key == key
    ensures Others(c, c.lru, key) == Without(c.lru, p)
  {
    hide CachedSlots, Without, Others, Total, KeysOnce;
    KeyCachedOnce(c, p, key);
    OthersIsWithout(c, c.lru, key, p);
  }

  lemma OthersAbsent(c: Shard, held: multiset<nat>, key: string)
    requires Ok(c, held) && forall s :: s in CachedSlots(c) ==> s.key != key
    ensures Others(c, c.lru, key) == c.lru
  {
    hide Without, Others, Total, CachedSlots;
    NoneWithKey(c, key);
    assert c.next !in c.lru;
    WithoutMembers(c.lru, c.next);
    OthersIsWithout(c, c.lru, key, c.next);
  }

  lemma NoneWithKey(c: Shard, key: string)
    requires forall s :: s in CachedSlots(c) ==> s.key != key
    ensures forall e :: Cached(c, e) ==> c.handles[e].key != key
  {
    forall e | Cached(c, e) ensures c.handles[e].key != key { SlotOfCached(c, e); }
  }

  lemma KeyCachedOnce(c: Shard, e: nat, key: string)
    requires KeysOnce(CachedSlots(c)) && Cached(c, e) && c.handles[e].key == key
    ensures forall x :: x != e && Cached(c, x) ==> c.handles[x].key != key
  {
    forall x | x != e && Cached(c, x) ensures c.handles[x].key != key {
      SlotOfCached(c, x);
      SlotOfCached(c, e);
    }
  }

  lemma StillOthers(c: Shard, d: Shard, e: nat, key: string)
    requires OnlyChanges(c, d, e) && !Cached(d, e) && forall x :: x != e && Cached(c, x) ==> c.handles[x].key != key
    ensures forall x :: Cached(d, x) ==> d.handles[x].key != key
  {
  }

  lemma ChargesKept(c: Shard, held: multiset<nat>, d: Shard, e: nat)
    requires Ok(c, held) && e == c.next && OnlyChanges(c, d, e)
    ensures forall x :: x in c.lru ==> ChargeOf(d.handles, x) == ChargeOf(c.handles, x)
  {
    hide Total;
  }

  lemma ChargesKeptTwice(c: Shard, held: multiset<nat>, d: Shard, e: nat, p: nat)
    requires Ok(c, held) && e == c.next && d.lru == Without(c.lru, p)
    requires forall x :: x != e && x != p ==> (x in d.handles <==> x in c.handles) && (x in c.handles ==> d.handles[x] == c.handles[x])
    ensures forall x :: x in d.lru ==> ChargeOf(d.handles, x) == ChargeOf(c.handles, x)
  {
    hide Total, Without;
    WithoutMembers(c.lru, p);
  }

  lemma EmptyIsOk(c: Shard, hashOf: string -> nat)
    requires c.handles == map[] && c.lru == [] == c.inUse && c.usage == 0 == c.next && c.deleted == []
    ensures Ok(c, multiset{}) && CachedSlots(c) == {} && HashesOk(c, hashOf)
  {
    hide Without;
  }

  lemma NoneCached(c: Shard, hashOf: string -> nat, key: string, slots: set<Slot>)
    requires slots == CachedSlots(c) && HashesOk(c, hashOf) && forall id: nat :: Slot(key, hashOf(key), id) !in slots
    ensures forall e :: Cached(c, e) ==> c.handles[e].key != key
  {
    forall e | Cached(c, e) ensures c.handles[e].key != key { SlotOfCached(c, e); }
  }

  lemma HashIs(c: Shard, hashOf: string -> nat, e: nat)
    requires HashesOk(c, hashOf) && e in c.handles
    ensures c.handles[e].hash == hashOf(c.handles[e].key)
  {
  }

  lemma HeldInOk(c: Shard, held: multiset<nat>, e: nat)
    requires Ok(c, held) && e in held
    ensures e in c.handles && c.handles[e].refs == held[e] + if c.handles[e].inCache then 1 else 0
  {
  }

  lemma HeldStay(c: Shard, held: multiset<nat>)
    requires Ok(c, held)
    ensures forall e :: e in held ==> e in c.handles
  {
  }

  lemma DeletedGrows(c: Shard, e: nat)
    requires e in c.handles
    ensures c.handles[e].refs > 0 && c.handles[e].charge <= c.usage ==> c.deleted <= FinishErase(c, e).deleted
  {
    hide Without;
  }

  lemma ErasedHash(c: Shard, e: nat, hashOf: string -> nat)
    requires e in c.handles && c.handles[e].refs > 0 && c.handles[e].charge <= c.usage
    requires c.handles[e].hash == hashOf(c.handles[e].key)
    ensures var d := FinishErase(c, e); e in d.handles ==> d.handles[e].hash == hashOf(d.handles[e].key)
  {
    hide Without;
  }

  lemma RemovedIs(c: Shard, hashOf: string -> nat, e: nat, r: Option<Slot>)
    requires HashesOk(c, hashOf) && Cached(c, e) && KeysOnce(CachedSlots(c))
    requires r.None? ==> forall s :: s in CachedSlots(c) ==> s.key != c.handles[e].key
    requires r.Some? ==> r.value in CachedSlots(c) && r.value.key == c.handles[e].key
    ensures r == Some(Slot(c.handles[e].key, c.handles[e].hash, e))
  {
    hide HashesOk, CachedSlots;
    SlotOfCached(c, e);
  }

  lemma EvictedOne(c: Shard, d: Shard, e: nat, held: multiset<nat>)
    requires c.lru != [] && e == c.lru[0] && OnlyChanges(c, d, e) && d.lru == c.lru[1..] && NoRepeats(c.lru) && held[e] == 0
    ensures forall x :: x in d.lru ==> ChargeOf(d.handles, x) == ChargeOf(c.handles, x)
    ensures forall x :: x in held && x in c.handles ==> x in d.handles && d.handles[x] == c.handles[x]
  {
  }
}
