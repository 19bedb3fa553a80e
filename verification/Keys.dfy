/** Internal keys, entries and sorted runs of entries.

    A user key is modelled by its rank under the user comparator among the user keys that occur in a run:
    the code only ever compares user keys, and finitely many have ranks (`ManifestFiles.KeysHaveRanks`). */
module Keys {

  datatype Option<+T> = None | Some(value: T)

  type UserKey = int

  const NUM_LEVELS := 7

  const MAX_SEQUENCE: nat := 0xFF_FFFF_FFFF_FFFF

  datatype ValueType = Deletion | Value

  datatype InternalKey = InternalKey(user: UserKey, sn: nat, typ: ValueType)

  datatype Entry = Entry(key: InternalKey, value: string)

  /** The low byte of the packed tag; kValueTypeForSeek is Value, the highest. */
  function TypeByte(t: ValueType): nat {
    match t case Deletion => 0 case Value => 1
  }

  function PackSequenceAndType(sn: nat, t: ValueType): nat {
    sn * 256 + TypeByte(t)
  }

  /** InternalKeyComparator: user key ascending, then packed tag descending. */
  predicate Less(a: InternalKey, b: InternalKey) {
    a.user < b.user ||
    (a.user == b.user && PackSequenceAndType(a.sn, a.typ) > PackSequenceAndType(b.sn, b.typ))
  }

  predicate AtMost(a: InternalKey, b: InternalKey) {
    a == b || Less(a, b)
  }

  lemma OrderIsTotal(a: InternalKey, b: InternalKey)
    ensures Less(a, b) || a == b || Less(b, a)
    ensures !(Less(a, b) && Less(b, a))
  {
  }

  lemma OrderIsTransitive(a: InternalKey, b: InternalKey, c: InternalKey)
    requires Less(a, b) && Less(b, c)
    ensures Less(a, c)
  {
  }

  /** The key a lookup of u at sequence number s seeks to (LookupKey). */
  function SeekKey(u: UserKey, s: nat): InternalKey {
    InternalKey(u, s, Value)
  }

  /** Seeking to (u, s) passes over exactly the entries of u written after s. */
  lemma SeekKeySkipsTooNew(k: InternalKey, u: UserKey, s: nat)
    ensures Less(k, SeekKey(u, s)) <==> k.user < u || (k.user == u && k.sn > s)
  {
  }

  ghost function SetOf(es: seq<Entry>): set<Entry> {
    set e | e in es
  }

  ghost predicate Sorted(es: seq<Entry>) {
    forall i, j :: 0 <= i < j < |es| ==> Less(es[i].key, es[j].key)
  }

  /** Index of the first entry at or after target; |es| when there is none. */
  function SeekFrom(es: seq<Entry>, target: InternalKey, i: nat): (r: nat)
    requires i <= |es|
    ensures i <= r <= |es|
    ensures forall j :: i <= j < r ==> Less(es[j].key, target)
    ensures r < |es| ==> !Less(es[r].key, target)
    decreases |es| - i
  {
    if i == |es| || !Less(es[i].key, target) then i else SeekFrom(es, target, i + 1)
  }

  function SeekIndex(es: seq<Entry>, target: InternalKey): (r: nat)
    ensures r <= |es|
    ensures forall j :: 0 <= j < r ==> Less(es[j].key, target)
    ensures r < |es| ==> !Less(es[r].key, target)
  {
    SeekFrom(es, target, 0)
  }

  /** One probe of a sorted run: seek to (u, s) and keep the entry found if it is of u. */
  function Probe(es: seq<Entry>, u: UserKey, s: nat): Option<Entry> {
    var i := SeekIndex(es, SeekKey(u, s));
    if i < |es| && es[i].key.user == u then Some(es[i]) else None
  }

  ghost predicate Hit(e: Entry, u: UserKey, s: int) {
    e.key.user == u && e.key.sn <= s
  }

  /** r is the newest entry of u in es no newer than s. */
  ghost predicate NewestOf(es: seq<Entry>, u: UserKey, s: nat, r: Option<Entry>) {
    match r
    case None => forall e :: e in es ==> !Hit(e, u, s)
    case Some(n) => n in es && Hit(n, u, s) && forall e :: e in es && Hit(e, u, s) ==> e.key.sn <= n.key.sn
  }

  lemma ProbeFindsNewest(es: seq<Entry>, u: UserKey, s: nat)
    requires Sorted(es)
    ensures NewestOf(es, u, s, Probe(es, u, s))
  {
    var t := SeekKey(u, s);
    var i := SeekIndex(es, t);
    forall e | e in es && Hit(e, u, s)
      ensures i < |es| && es[i].key.user == u && e.key.sn <= es[i].key.sn
    {
      var j :| 0 <= j < |es| && es[j] == e;
      assert !Less(e.key, t);
      assert j >= i;
      if i < j { assert Less(es[i].key, es[j].key); }
    }
  }

  /** Insertion into the skip list, seen as the sorted sequence of its entries. */
  function Insert(es: seq<Entry>, e: Entry): seq<Entry> {
    var i := SeekIndex(es, e.key);
    es[..i] + [e] + es[i..]
  }

  lemma InsertIsSorted(es: seq<Entry>, e: Entry)
    requires Sorted(es)
    requires forall x :: x in es ==> x.key != e.key
    ensures Sorted(Insert(es, e))
    ensures forall x :: x in Insert(es, e) <==> x in es || x == e
  {
    hide Less, SeekIndex, Sorted;
    var i := SeekIndex(es, e.key);
    PutInMembers(es, e, i);
    forall j | i <= j < |es| ensures Less(e.key, es[j].key) { BeforeTheRest(es, e, i, j); }
    PutInSorted(es, e, i);
  }

  lemma PutInMembers(es: seq<Entry>, e: Entry, i: nat)
    requires i <= |es|
    ensures forall x :: x in es[..i] + [e] + es[i..] <==> x in es || x == e
  {
    assert es == es[..i] + es[i..];
  }

  lemma BeforeTheRest(es: seq<Entry>, e: Entry, i: nat, j: nat)
    requires Sorted(es) && i <= j < |es| && !Less(es[i].key, e.key) && es[i].key != e.key
    ensures Less(e.key, es[j].key)
  {
    hide Less;
    OrderIsTotal(es[i].key, e.key);
    if i < j { OrderIsTransitive(e.key, es[i].key, es[j].key); }
  }

  lemma PutInSorted(es: seq<Entry>, e: Entry, i: nat)
    requires Sorted(es) && i <= |es|
    requires forall j :: 0 <= j < i ==> Less(es[j].key, e.key)
    requires forall j :: i <= j < |es| ==> Less(e.key, es[j].key)
    ensures Sorted(es[..i] + [e] + es[i..])
  {
    hide Less;
    var r := es[..i] + [e] + es[i..];
    forall a, b | 0 <= a < b < |r| ensures Less(r[a].key, r[b].key) {
      assert r[a] == if a < i then es[a] else if a == i then e else es[a - 1];
      assert r[b] == if b < i then es[b] else if b == i then e else es[b - 1];
    }
  }
}
