/** The flat write history, the view of a set of entries at a sequence number,
    and the drop rules of a compaction. */
module History {
  import opened Keys

  datatype Op = Put(key: UserKey, value: string) | Delete(key: UserKey)

  type Log = seq<Op>

  /** What a read of u at sequence number s must return: the value of the newest
      of the first s writes to u, unless that write is a deletion. */
  function Lookup(h: Log, u: UserKey, s: nat): Option<string>
    requires s <= |h|
  {
    if s == 0 then None
    else if h[s - 1].key == u then
      match h[s - 1] case Put(_, v) => Some(v) case Delete(_) => None
    else Lookup(h, u, s - 1)
  }

  /** What MemTableInserter adds for an operation. */
  function EntryAt(op: Op, sn: nat): Entry {
    match op
    case Put(k, v) => Entry(InternalKey(k, sn, Value), v)
    case Delete(k) => Entry(InternalKey(k, sn, Deletion), "")
  }

  /** The i-th write carries sequence number i, counting from one (MemTableInserter). */
  function EntryOf(h: Log, i: nat): Entry
    requires 1 <= i <= |h|
  {
    EntryAt(h[i - 1], i)
  }

  ghost predicate WrittenBy(e: Entry, h: Log) {
    1 <= e.key.sn <= |h| && e == EntryOf(h, e.key.sn)
  }

  ghost predicate AllWrittenBy(c: set<Entry>, h: Log) {
    forall e :: e in c ==> WrittenBy(e, h)
  }

  /** The newest entry of u in c with sequence number at most s. */
  ghost function NewestIn(c: set<Entry>, u: UserKey, s: int): (r: Option<Entry>)
    ensures r.None? ==> forall e :: e in c ==> !Hit(e, u, s)
    ensures r.Some? ==> r.value in c && Hit(r.value, u, s)
    ensures r.Some? ==> forall e :: e in c && Hit(e, u, s) ==> e.key.sn <= r.value.key.sn
    decreases s + 1
  {
    if s < 0 then None
    else if exists e :: e in c && e.key.user == u && e.key.sn == s then
      var e :| e in c && e.key.user == u && e.key.sn == s; Some(e)
    else NewestIn(c, u, s - 1)
  }

  function Visible(e: Option<Entry>): Option<string> {
    if e.Some? && e.value.key.typ == Value then Some(e.value.value) else None
  }

  ghost function View(c: set<Entry>, u: UserKey, s: int): Option<string> {
    Visible(NewestIn(c, u, s))
  }

  /** Two entries written at the same number are the same, so the newest one is unique. */
  lemma NewestIsUnique(c: set<Entry>, h: Log, u: UserKey, s: int, n: Entry)
    requires AllWrittenBy(c, h)
    requires n in c && Hit(n, u, s)
    requires forall e :: e in c && Hit(e, u, s) ==> e.key.sn <= n.key.sn
    ensures NewestIn(c, u, s) == Some(n)
  {
    var m := NewestIn(c, u, s);
    assert WrittenBy(n, h) && WrittenBy(m.value, h);
  }

  lemma NothingIsUnique(c: set<Entry>, u: UserKey, s: int)
    requires forall e :: e in c ==> !Hit(e, u, s)
    ensures NewestIn(c, u, s) == None
  {
  }

  lemma {:induction false} LookupIgnoresLaterWrites(h: Log, more: Log, u: UserKey, s: nat)
    requires s <= |h|
    ensures Lookup(h + more, u, s) == Lookup(h, u, s)
  {
    if s > 0 { LookupIgnoresLaterWrites(h, more, u, s - 1); }
  }

  /** Entries with larger sequence numbers do not change a view. */
  lemma ViewIgnoresNewer(c: set<Entry>, d: set<Entry>, h: Log, u: UserKey, s: int)
    requires AllWrittenBy(c, h) && AllWrittenBy(d, h)
    requires forall e :: e in d && e.key.sn <= s ==> e in c
    requires forall e :: e in c && e.key.sn <= s ==> e in d
    ensures View(c, u, s) == View(d, u, s)
  {
    var n := NewestIn(c, u, s);
    if n.Some? { NewestIsUnique(d, h, u, s, n.value); } else { NothingIsUnique(d, u, s); }
  }

  /** If c agrees with the history up to a and holds every later write, it agrees up to b. */
  lemma {:induction false} ViewFollowsHistory(c: set<Entry>, h: Log, u: UserKey, a: nat, b: nat)
    requires a <= b <= |h| && AllWrittenBy(c, h)
    requires View(c, u, a) == Lookup(h, u, a)
    requires forall i :: a < i <= b ==> EntryOf(h, i) in c
    ensures View(c, u, b) == Lookup(h, u, b)
  {
    if a < b {
      ViewFollowsHistory(c, h, u, a, b - 1);
      var e := EntryOf(h, b);
      if e.key.user == u {
        NewestIsUnique(c, h, u, b, e);
      } else {
        forall x | x in c && Hit(x, u, b) ensures Hit(x, u, b - 1) { assert WrittenBy(x, h); }
        var n := NewestIn(c, u, b - 1);
        if n.Some? { NewestIsUnique(c, h, u, b, n.value); } else { NothingIsUnique(c, u, b); }
      }
    }
  }

  // ---------------------------------------------------------------- drop rules

  /** Rule (A): a newer entry of the same user key, already visible at snap, precedes d. */
  ghost predicate Hidden(inputs: set<Entry>, d: Entry, snap: nat) {
    exists e :: e in inputs && e.key.user == d.key.user && d.key.sn < e.key.sn <= snap
  }

  /** Rule (B): a deletion visible at snap, with no data for its key in deeper levels. */
  ghost predicate ObsoleteTombstone(d: Entry, snap: nat, base: UserKey -> bool) {
    d.key.typ == Deletion && d.key.sn <= snap && base(d.key.user)
  }

  ghost predicate Dropped(inputs: set<Entry>, d: Entry, snap: nat, base: UserKey -> bool) {
    Hidden(inputs, d, snap) || ObsoleteTombstone(d, snap, base)
  }

  /** The database contents c once the outputs replace the inputs. */
  ghost function Compacted(c: set<Entry>, inputs: set<Entry>, snap: nat, base: UserKey -> bool): set<Entry> {
    set e | e in c && !(e in inputs && Dropped(inputs, e, snap, base))
  }

  /** Every tombstone that rule (B) removes either stays overwritten by something visible
      at lo, or covers no live value outside the inputs. */
  ghost predicate TombstonesSafe(c: set<Entry>, inputs: set<Entry>, snap: nat, base: UserKey -> bool, lo: nat) {
    forall d :: d in inputs && ObsoleteTombstone(d, snap, base) && !Hidden(inputs, d, snap) ==>
      Hidden(c, d, lo) || View(c - inputs, d.key.user, d.key.sn) == None
  }

  ghost predicate SameReadsFrom(c: set<Entry>, c': set<Entry>, lo: nat) {
    forall u, s: nat :: lo <= s ==> View(c', u, s) == View(c, u, s)
  }

  /** Reads from lo to hi. */
  ghost predicate SameReads(c: set<Entry>, c': set<Entry>, lo: nat, hi: nat) {
    forall u, s: nat :: lo <= s <= hi ==> View(c', u, s) == View(c, u, s)
  }

  lemma CompactionKeepsRead(c: set<Entry>, inputs: set<Entry>, h: Log, snap: nat, base: UserKey -> bool,
                            lo: nat, u: UserKey, s: nat)
    requires AllWrittenBy(c, h) && inputs <= c && snap <= lo <= s
    requires TombstonesSafe(c, inputs, snap, base, lo)
    ensures View(Compacted(c, inputs, snap, base), u, s) == View(c, u, s)
  {
    var c' := Compacted(c, inputs, snap, base);
    var n := NewestIn(c, u, s);
    if n.None? {
      NothingIsUnique(c', u, s);
    } else if n.value in c' {
      NewestIsUnique(c', h, u, s, n.value);
    } else {
      var d := n.value;
      assert !Hidden(c, d, lo);
      assert !Hidden(inputs, d, snap);
      var rest := c - inputs;
      var m, m' := NewestIn(rest, u, d.key.sn), NewestIn(c', u, s);
      if m'.Some? {
        var x := m'.value;
        assert WrittenBy(x, h) && WrittenBy(d, h);
        assert x.key.sn < d.key.sn;
        assert x in inputs ==> Hidden(inputs, x, snap);
        assert x in rest;
        assert m.value in c' && Hit(m.value, u, s);
        NewestIsUnique(rest, h, u, d.key.sn, x);
      }
    }
  }

  lemma UnsafeTombstoneChangesRead(c: set<Entry>, inputs: set<Entry>, h: Log, snap: nat,
                                   base: UserKey -> bool, lo: nat, d: Entry)
    requires AllWrittenBy(c, h) && inputs <= c && snap <= lo
    requires d in inputs && ObsoleteTombstone(d, snap, base)
    requires !Hidden(c, d, lo) && View(c - inputs, d.key.user, d.key.sn) != None
    ensures View(c, d.key.user, lo) == None
    ensures View(Compacted(c, inputs, snap, base), d.key.user, lo) == View(c - inputs, d.key.user, d.key.sn)
  {
    var u, c', rest := d.key.user, Compacted(c, inputs, snap, base), c - inputs;
    assert WrittenBy(d, h);
    NewestIsUnique(c, h, u, lo, d);
    var w := NewestIn(rest, u, d.key.sn).value;
    assert WrittenBy(w, h);
    forall x | x in c' && Hit(x, u, lo) ensures x.key.sn <= w.key.sn {
      assert WrittenBy(x, h);
      assert x.key.sn <= d.key.sn;
      if x in inputs { assert Hidden(inputs, x, snap); }
    }
    NewestIsUnique(c', h, u, lo, w);
  }

  /** A compaction keeps every read at lo or later exactly when its tombstones are safe there, and one that
      does not changes a read at lo itself. */
  lemma CompactionKeepsReadsIff(c: set<Entry>, inputs: set<Entry>, h: Log, snap: nat, base: UserKey -> bool, lo: nat, hi: nat)
    requires AllWrittenBy(c, h) && inputs <= c && snap <= lo <= hi
    ensures SameReadsFrom(c, Compacted(c, inputs, snap, base), lo) <==> TombstonesSafe(c, inputs, snap, base, lo)
    ensures SameReads(c, Compacted(c, inputs, snap, base), lo, hi) <==> TombstonesSafe(c, inputs, snap, base, lo)
  {
    hide View, Hidden, ObsoleteTombstone, Compacted;
    if TombstonesSafe(c, inputs, snap, base, lo) {
      forall u, s: nat | lo <= s { CompactionKeepsRead(c, inputs, h, snap, base, lo, u, s); }
    } else {
      var d :| d in inputs && ObsoleteTombstone(d, snap, base) && !Hidden(inputs, d, snap) &&
        !Hidden(c, d, lo) && View(c - inputs, d.key.user, d.key.sn) != None;
      UnsafeTombstoneChangesRead(c, inputs, h, snap, base, lo, d);
    }
  }
}
