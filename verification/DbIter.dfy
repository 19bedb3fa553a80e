/** DBIter: walks the newest visible entry of each user key, in both directions, over the internal
    iterator. */
module DbIter {
  import opened Keys
  import opened History
  import opened Merging

  /** What an iteration shows: a user key and its value. */
  datatype Row = Row(user: UserKey, value: string)

  /** Index i holds the newest entry of its user key at or before s, and that entry is a value. */
  ghost predicate Yields(es: seq<Entry>, s: nat, i: nat) {
    i < |es| && es[i].key.sn <= s && es[i].key.typ == Value &&
    forall j :: 0 <= j < i ==> !Hit(es[j], es[i].key.user, s)
  }

  /** The rows of the first n entries, in order. */
  ghost function Rows(es: seq<Entry>, s: nat, n: nat): seq<Row>
    requires n <= |es|
  {
    if n == 0 then []
    else Rows(es, s, n - 1) + if Yields(es, s, n - 1) then [Row(es[n - 1].key.user, es[n - 1].value)] else []
  }

  ghost function AllRows(es: seq<Entry>, s: nat): seq<Row> {
    Rows(es, s, |es|)
  }

  // ------------------------------------------------------------ what the rows are

  lemma {:induction false} RowsComeFrom(es: seq<Entry>, s: nat, n: nat, r: Row)
    requires n <= |es|
    ensures r in Rows(es, s, n) <==> exists i :: 0 <= i < n && Yields(es, s, i) && r == Row(es[i].key.user, es[i].value)
  {
    hide Yields;
    if n > 0 { RowsComeFrom(es, s, n - 1, r); }
  }

  lemma {:induction false} RowsAscend(es: seq<Entry>, s: nat, n: nat)
    requires Sorted(es) && n <= |es|
    ensures forall i, j :: 0 <= i < j < |Rows(es, s, n)| ==> Rows(es, s, n)[i].user < Rows(es, s, n)[j].user
  {
    if n > 0 {
      RowsAscend(es, s, n - 1);
      forall r | r in Rows(es, s, n - 1) && Yields(es, s, n - 1) ensures r.user < es[n - 1].key.user {
        RowsComeFrom(es, s, n - 1, r);
        var i :| 0 <= i < n - 1 && Yields(es, s, i) && r == Row(es[i].key.user, es[i].value);
        assert Less(es[i].key, es[n - 1].key) && !Hit(es[i], es[n - 1].key.user, s);
      }
    }
  }

  /** The rows are exactly the values a read at sequence number s sees, in user-key order. */
  lemma RowsAreTheView(es: seq<Entry>, h: Log, s: nat)
    requires Sorted(es) && AllWrittenBy(SetOf(es), h)
    ensures forall i, j :: 0 <= i < j < |AllRows(es, s)| ==> AllRows(es, s)[i].user < AllRows(es, s)[j].user
    ensures forall u, v :: Row(u, v) in AllRows(es, s) <==> View(SetOf(es), u, s) == Some(v)
  {
    hide View, Yields, Sorted, AllWrittenBy;
    RowsAscend(es, s, |es|);
    forall u, v ensures Row(u, v) in AllRows(es, s) <==> View(SetOf(es), u, s) == Some(v) {
      RowsComeFrom(es, s, |es|, Row(u, v));
      if i :| 0 <= i < |es| && Yields(es, s, i) && Row(u, v) == Row(es[i].key.user, es[i].value) {
        YieldIsNewest(es, h, s, i);
      }
      if View(SetOf(es), u, s) == Some(v) {
        var i := NewestYields(es, h, u, s, v);
      }
    }
  }

  lemma YieldIsNewest(es: seq<Entry>, h: Log, s: nat, i: nat)
    requires Sorted(es) && AllWrittenBy(SetOf(es), h) && Yields(es, s, i)
    ensures View(SetOf(es), es[i].key.user, s) == Some(es[i].value)
  {
    var c := SetOf(es);
    forall e | e in c && Hit(e, es[i].key.user, s) ensures e.key.sn <= es[i].key.sn {
      var j :| 0 <= j < |es| && es[j] == e;
      if i < j { assert Less(es[i].key, es[j].key); }
    }
    NewestIsUnique(c, h, es[i].key.user, s, es[i]);
  }

  lemma NewestYields(es: seq<Entry>, h: Log, u: UserKey, s: nat, v: string) returns (i: nat)
    requires Sorted(es) && AllWrittenBy(SetOf(es), h) && View(SetOf(es), u, s) == Some(v)
    ensures Yields(es, s, i) && es[i].key.user == u && es[i].value == v
  {
    var c := SetOf(es);
    var n := NewestIn(c, u, s).value;
    i :| 0 <= i < |es| && es[i] == n;
    forall j | 0 <= j < i ensures !Hit(es[j], u, s) {
      assert es[j] in c && Less(es[j].key, es[i].key);
      assert WrittenBy(es[j], h) && WrittenBy(n, h);
    }
  }

  // ------------------------------------------------------------ counting rows

  lemma {:induction false} NoRowsBetween(es: seq<Entry>, s: nat, a: nat, b: nat)
    requires a <= b <= |es| && forall i :: a <= i < b ==> !Yields(es, s, i)
    ensures Rows(es, s, b) == Rows(es, s, a)
  {
    hide Yields;
    if a < b { NoRowsBetween(es, s, a, b - 1); }
  }

  /** From one yielding index to just past it and the barren stretch behind it: one row more. */
  lemma OneRowLater(es: seq<Entry>, s: nat, a: nat, b: nat)
    requires a < b <= |es| && Yields(es, s, a) && forall i :: a < i < b ==> !Yields(es, s, i)
    ensures |Rows(es, s, b)| == |Rows(es, s, a)| + 1
  {
    hide Yields;
    NoRowsBetween(es, s, a + 1, b);
  }

  lemma {:induction false} RowAt(es: seq<Entry>, s: nat, i: nat, n: nat)
    requires i < n <= |es| && Yields(es, s, i)
    ensures |Rows(es, s, i)| < |Rows(es, s, n)| && Rows(es, s, n)[|Rows(es, s, i)|] == Row(es[i].key.user, es[i].value)
    decreases n
  {
    hide Yields;
    if i < n - 1 { RowAt(es, s, i, n - 1); }
  }

  // ------------------------------------------------------------ scanning forward

  /** At index p, looking for an entry that yields at or after index next: visible entries of user
      keys up to skip are not wanted, and those that are hidden, or come before next, are skipped. */
  ghost predicate SkipOk(es: seq<Entry>, s: nat, p: nat, next: nat, skipping: bool, skip: Option<UserKey>) {
    (skipping ==> skip.Some?) &&
    forall i :: p <= i < |es| && es[i].key.sn <= s ==>
      (skipping && es[i].key.user <= skip.value && i >= next ==> !Yields(es, s, i)) &&
      (i < next ==> skipping && es[i].key.user == skip.value) &&
      (HiddenBefore(es, s, p, i) ==> skipping && es[i].key.user <= skip.value)
  }

  /** A visible entry before p hides the entry at i. */
  ghost predicate HiddenBefore(es: seq<Entry>, s: nat, p: nat, i: nat)
    requires p <= i < |es|
  {
    exists j :: 0 <= j < p && Hit(es[j], es[i].key.user, s)
  }

  lemma SkipMeans(es: seq<Entry>, s: nat, p: nat, next: nat, skipping: bool, skip: Option<UserKey>)
    requires SkipOk(es, s, p, next, skipping, skip)
    ensures (skipping ==> skip.Some?) && Barren(es, s, p, next, p)
  {
  }

  lemma SameUserBetween(es: seq<Entry>, j: nat, p: nat, i: nat)
    requires Sorted(es) && j <= p <= i < |es|
    ensures es[j].key.user <= es[p].key.user <= es[i].key.user
  {
    if j < p { assert Less(es[j].key, es[p].key); }
    if p < i { assert Less(es[p].key, es[i].key); }
  }

  /** Entries too new are stepped over. */
  lemma SkipTooNew(es: seq<Entry>, s: nat, p: nat, next: nat, skipping: bool, skip: Option<UserKey>)
    requires SkipOk(es, s, p, next, skipping, skip) && p < |es| && es[p].key.sn > s
    ensures SkipOk(es, s, p + 1, next, skipping, skip) && !Yields(es, s, p)
  {
    forall i | p < i < |es| && es[i].key.sn <= s && HiddenBefore(es, s, p + 1, i) ensures HiddenBefore(es, s, p, i) {
      var j :| 0 <= j < p + 1 && Hit(es[j], es[i].key.user, s);
      assert j < p;
    }
  }

  /** A visible entry hides only entries of its own user key or of keys already passed. */
  lemma HiddenUpTo(es: seq<Entry>, s: nat, p: nat, i: nat)
    requires Sorted(es) && p < i < |es| && HiddenBefore(es, s, p + 1, i)
    ensures es[i].key.user <= es[p].key.user
  {
    var j :| 0 <= j < p + 1 && Hit(es[j], es[i].key.user, s);
    SameUserBetween(es, j, p, i);
  }

  /** Past a visible entry nothing of its user key, or of a smaller one, yields. */
  lemma NothingYieldsBehind(es: seq<Entry>, s: nat, p: nat, i: nat)
    requires Sorted(es) && p < i < |es| && es[p].key.sn <= s && es[i].key.user <= es[p].key.user
    ensures !Yields(es, s, i)
  {
    SameUserBetween(es, p, p, i);
    assert Hit(es[p], es[i].key.user, s);
  }

  lemma SkipDeleted(es: seq<Entry>, s: nat, p: nat, next: nat, skipping: bool, skip: Option<UserKey>)
    requires Sorted(es) && SkipOk(es, s, p, next, skipping, skip)
    requires p < |es| && es[p].key.sn <= s && es[p].key.typ == Deletion
    ensures SkipOk(es, s, p + 1, next, true, Some(es[p].key.user)) && !Yields(es, s, p)
  {
    hide Sorted, HiddenBefore;
    forall i | p < i < |es| && es[i].key.sn <= s
      ensures es[i].key.user <= es[p].key.user ==> !Yields(es, s, i)
      ensures HiddenBefore(es, s, p + 1, i) ==> es[i].key.user <= es[p].key.user
    {
      if es[i].key.user <= es[p].key.user { NothingYieldsBehind(es, s, p, i); }
      if HiddenBefore(es, s, p + 1, i) { HiddenUpTo(es, s, p, i); }
    }
  }

  lemma SkipHidden(es: seq<Entry>, s: nat, p: nat, next: nat, skip: Option<UserKey>)
    requires Sorted(es) && SkipOk(es, s, p, next, true, skip)
    requires p < |es| && es[p].key.sn <= s && es[p].key.user <= skip.value
    ensures SkipOk(es, s, p + 1, next, true, skip) && (p >= next ==> !Yields(es, s, p))
  {
    hide Sorted, Yields, HiddenBefore;
    forall i | p < i < |es| && es[i].key.sn <= s && HiddenBefore(es, s, p + 1, i) ensures es[i].key.user <= skip.value {
      HiddenUpTo(es, s, p, i);
    }
  }

  lemma NotHiddenYields(es: seq<Entry>, s: nat, p: nat, next: nat, skipping: bool, skip: Option<UserKey>)
    requires SkipOk(es, s, p, next, skipping, skip)
    requires p < |es| && es[p].key.sn <= s && es[p].key.typ == Value && !(skipping && es[p].key.user <= skip.value)
    ensures Yields(es, s, p) && p >= next
  {
    assert !HiddenBefore(es, s, p, p);
  }

  /** Past the entry that yields, its own user key is to be skipped. */
  lemma SkipYielded(es: seq<Entry>, s: nat, p: nat)
    requires Sorted(es) && Yields(es, s, p)
    ensures SkipOk(es, s, p + 1, p + 1, true, Some(es[p].key.user))
  {
    hide Sorted, HiddenBefore;
    forall i | p < i < |es| && es[i].key.sn <= s
      ensures es[i].key.user <= es[p].key.user ==> !Yields(es, s, i)
      ensures HiddenBefore(es, s, p + 1, i) ==> es[i].key.user <= es[p].key.user
    {
      if es[i].key.user <= es[p].key.user { NothingYieldsBehind(es, s, p, i); }
      if HiddenBefore(es, s, p + 1, i) { HiddenUpTo(es, s, p, i); }
    }
  }

  /** Nothing from p up to b, and at or after next, yields. */
  ghost predicate Barren(es: seq<Entry>, s: nat, p: nat, next: nat, b: nat) {
    forall i :: p <= i < b && next <= i ==> !Yields(es, s, i)
  }

  lemma BarrenStep(es: seq<Entry>, s: nat, p: nat, next: nat, b: nat)
    requires p <= b && Barren(es, s, p, next, b)
    ensures Barren(es, s, p, next, b + 1) <==> !(next <= b && Yields(es, s, b))
  {
    hide Yields;
  }

  /** Where a backward scan for user key u stopped: every entry before c is of a smaller user key,
      and from c on such entries are too new. */
  ghost predicate Cut(es: seq<Entry>, s: nat, c: nat, u: UserKey) {
    c <= |es| && (forall i :: 0 <= i < c ==> es[i].key.user < u) &&
    forall i :: c <= i < |es| && es[i].key.user < u ==> es[i].key.sn > s
  }

  /** Turning forward from a cut, everything up to the yielded entry is passed over. */
  lemma SkipFromCut(es: seq<Entry>, s: nat, c: nat, q: nat)
    requires Sorted(es) && Yields(es, s, q) && Cut(es, s, c, es[q].key.user)
    ensures c <= q && SkipOk(es, s, c, q + 1, true, Some(es[q].key.user))
  {
    hide Sorted, HiddenBefore;
    var u := es[q].key.user;
    forall i | c <= i < |es| && es[i].key.sn <= s
      ensures i <= q ==> es[i].key.user == u
      ensures i > q && es[i].key.user <= u ==> !Yields(es, s, i)
      ensures HiddenBefore(es, s, c, i) ==> es[i].key.user <= u
    {
      if i <= q {
        SameUserBetween(es, i, i, q);
      } else {
        if es[i].key.user <= u { NothingYieldsBehind(es, s, q, i); }
        if HiddenBefore(es, s, c, i) { HiddenByCut(es, s, c, i, u); }
      }
    }
  }

  lemma HiddenByCut(es: seq<Entry>, s: nat, c: nat, i: nat, u: UserKey)
    requires Cut(es, s, c, u) && c <= i < |es| && HiddenBefore(es, s, c, i)
    ensures es[i].key.user <= u
  {
    var j :| 0 <= j < c && Hit(es[j], es[i].key.user, s);
  }

  /** Nothing between the cut and the yielded entry yields. */
  lemma NothingYieldsFromCut(es: seq<Entry>, s: nat, c: nat, q: nat)
    requires Sorted(es) && Yields(es, s, q) && Cut(es, s, c, es[q].key.user)
    ensures c <= q && forall i :: c <= i < q ==> !Yields(es, s, i)
  {
    hide Sorted;
    forall i | c <= i < q ensures !Yields(es, s, i) {
      SameUserBetween(es, i, i, q);
      assert !Hit(es[i], es[q].key.user, s);
    }
  }

  lemma SkipNothing(es: seq<Entry>, s: nat, p: nat, skip: Option<UserKey>)
    requires forall i :: p <= i < |es| && es[i].key.sn <= s ==> !HiddenBefore(es, s, p, i)
    ensures SkipOk(es, s, p, p, false, skip)
  {
  }

  lemma SkipFromTarget(es: seq<Entry>, s: nat, target: UserKey, skip: Option<UserKey>)
    requires Sorted(es)
    ensures var p := SeekIndex(es, SeekKey(target, s)); SkipOk(es, s, p, p, false, skip)
  {
    var p := SeekIndex(es, SeekKey(target, s));
    forall i | p <= i < |es| && es[i].key.sn <= s ensures !HiddenBefore(es, s, p, i) {
      SeekCuts(es, SeekKey(target, s), i);
      forall j | 0 <= j < p ensures !Hit(es[j], es[i].key.user, s) {
        SeekKeySkipsTooNew(es[j].key, target, s);
        SeekKeySkipsTooNew(es[i].key, target, s);
      }
    }
    SkipNothing(es, s, p, skip);
  }

  /** The rows before the first index at or after (target, s) are those of smaller user keys. */
  lemma RowsBeforeTarget(es: seq<Entry>, s: nat, target: UserKey)
    requires Sorted(es)
    ensures var p, rows := SeekIndex(es, SeekKey(target, s)), AllRows(es, s);
      |Rows(es, s, p)| <= |rows| && (forall i :: 0 <= i < |Rows(es, s, p)| ==> rows[i].user < target) &&
      (forall i :: |Rows(es, s, p)| <= i < |rows| ==> rows[i].user >= target)
  {
    hide Yields, Sorted, SeekIndex;
    var p := SeekIndex(es, SeekKey(target, s));
    RowsSplit(es, s, p, |es|);
    forall r | r in Rows(es, s, p) ensures r.user < target {
      RowsComeFrom(es, s, p, r);
      var i :| 0 <= i < p && Yields(es, s, i) && r == Row(es[i].key.user, es[i].value);
      YieldsVisible(es, s, i);
      SeekKeySkipsTooNew(es[i].key, target, s);
    }
    hide Rows;
    forall r | r in AllRows(es, s)[|Rows(es, s, p)|..] ensures r.user >= target {
      var i := LaterRow(es, s, p, |es|, r);
      YieldsVisible(es, s, i);
      SeekCuts(es, SeekKey(target, s), i);
      SeekKeySkipsTooNew(es[i].key, target, s);
    }
    forall i | |Rows(es, s, p)| <= i < |AllRows(es, s)| ensures AllRows(es, s)[i].user >= target {
      assert AllRows(es, s)[i] == AllRows(es, s)[|Rows(es, s, p)|..][i - |Rows(es, s, p)|];
    }
  }

  lemma YieldsVisible(es: seq<Entry>, s: nat, i: nat)
    requires Yields(es, s, i)
    ensures i < |es| && es[i].key.sn <= s
  {
  }

  lemma {:induction false} RowsSplit(es: seq<Entry>, s: nat, p: nat, n: nat)
    requires p <= n <= |es|
    ensures Rows(es, s, p) <= Rows(es, s, n)
  {
    hide Yields;
    if p < n { RowsSplit(es, s, p, n - 1); }
  }

  lemma {:induction false} LaterRow(es: seq<Entry>, s: nat, p: nat, n: nat, r: Row) returns (i: nat)
    requires p <= n <= |es| && Rows(es, s, p) <= Rows(es, s, n) && r in Rows(es, s, n)[|Rows(es, s, p)|..]
    ensures p <= i < n && Yields(es, s, i) && r == Row(es[i].key.user, es[i].value)
    decreases n
  {
    hide Yields;
    assert p < n;
    RowsSplit(es, s, p, n - 1);
    if r in Rows(es, s, n - 1)[|Rows(es, s, p)|..] {
      i := LaterRow(es, s, p, n - 1, r);
    } else {
      i := n - 1;
    }
  }

  /** Entries of the yielded entry's user key before it are too new. */
  lemma SameUserBarren(es: seq<Entry>, s: nat, q: nat, p: nat)
    requires Yields(es, s, q) && p <= q && forall i :: p <= i < q ==> es[i].key.user == es[q].key.user
    ensures forall i :: p <= i < q ==> !Yields(es, s, i)
  {
    forall i | p <= i < q ensures !Yields(es, s, i) { assert !Hit(es[i], es[q].key.user, s); }
  }

  // ------------------------------------------------------------ scanning backward

  /** A backward scan from cut c has come down to index p: m is the last visible entry it met, or c,
      and nothing else it passed yields. */
  ghost predicate ScanOk(es: seq<Entry>, s: nat, c: nat, p: int, m: nat, typ: ValueType,
                         savedKey: Option<UserKey>, savedValue: string) {
    -1 <= p < m <= c <= |es| &&
    (forall i :: p < i < m ==> es[i].key.sn > s) &&
    (forall i :: p < i < c && i != m ==> !Yields(es, s, i)) &&
    (m == c ==> typ == Deletion) &&
    (m < c ==> es[m].key.sn <= s && es[m].key.typ == typ) &&
    (m < c && typ == Value ==> savedKey == Some(es[m].key.user) && savedValue == es[m].value)
  }

  /** The scan takes a visible entry that belongs to the same user key, or follows a deletion. */
  lemma ScanTakes(es: seq<Entry>, s: nat, c: nat, p: nat, m: nat, typ: ValueType, savedKey: Option<UserKey>,
                  savedValue: string, savedKey': Option<UserKey>, savedValue': string)
    requires Sorted(es) && ScanOk(es, s, c, p, m, typ, savedKey, savedValue) && es[p].key.sn <= s
    requires typ == Value ==> savedKey.value <= es[p].key.user
    requires es[p].key.typ == Value ==> savedKey' == Some(es[p].key.user) && savedValue' == es[p].value
    ensures ScanOk(es, s, c, p - 1, p, es[p].key.typ, savedKey', savedValue')
  {
    hide Sorted;
    if m < c {
      SameUserBetween(es, p, p, m);
      if typ == Value { NothingYieldsBehind(es, s, p, m); }
    }
  }

  /** The scan stops before an entry of a smaller user key: the entry it took yields. */
  lemma ScanStops(es: seq<Entry>, s: nat, c: nat, p: nat, m: nat, savedKey: Option<UserKey>, savedValue: string)
    requires Sorted(es) && ScanOk(es, s, c, p, m, Value, savedKey, savedValue) && es[p].key.user < savedKey.value
    ensures Yields(es, s, m) && Cut(es, s, p + 1, es[m].key.user)
  {
    hide Sorted;
    forall i | 0 <= i <= p ensures es[i].key.user < es[m].key.user { SameUserBetween(es, i, p, p); }
    forall i | m <= i < |es| ensures es[i].key.user >= es[m].key.user { SameUserBetween(es, m, m, i); }
  }

  lemma ScanEnds(es: seq<Entry>, s: nat, c: nat, m: nat, savedKey: Option<UserKey>, savedValue: string)
    requires Sorted(es) && ScanOk(es, s, c, -1, m, Value, savedKey, savedValue)
    ensures Yields(es, s, m) && Cut(es, s, 0, es[m].key.user)
  {
    hide Sorted;
    forall i | m <= i < |es| ensures es[i].key.user >= es[m].key.user { SameUserBetween(es, m, m, i); }
  }

  lemma ScanStarts(es: seq<Entry>, s: nat, c: nat, savedKey: Option<UserKey>, savedValue: string)
    requires c <= |es|
    ensures ScanOk(es, s, c, c - 1, c, Deletion, savedKey, savedValue)
  {
  }

  lemma ScanPasses(es: seq<Entry>, s: nat, c: nat, p: nat, m: nat, typ: ValueType, savedKey: Option<UserKey>, savedValue: string)
    requires ScanOk(es, s, c, p, m, typ, savedKey, savedValue) && es[p].key.sn > s
    ensures ScanOk(es, s, c, p - 1, m, typ, savedKey, savedValue)
  {
  }

  lemma ScanMeans(es: seq<Entry>, s: nat, c: nat, p: int, m: nat, typ: ValueType, savedKey: Option<UserKey>, savedValue: string)
    requires ScanOk(es, s, c, p, m, typ, savedKey, savedValue)
    ensures p < m <= c <= |es| && (typ == Value ==> m < c && savedKey.Some?)
  {
  }

  ghost predicate BarrenBack(es: seq<Entry>, s: nat, a: nat, b: nat) {
    forall i :: a <= i < b ==> !Yields(es, s, i)
  }

  /** What the scan has found when it stops, before an entry of a smaller user key or at the front. */
  lemma ScanResult(es: seq<Entry>, s: nat, c: nat, p: int, m: nat, typ: ValueType, savedKey: Option<UserKey>,
                   savedValue: string, stopped: bool)
    requires Sorted(es) && ScanOk(es, s, c, p, m, typ, savedKey, savedValue)
    requires if stopped then typ == Value && Yields(es, s, m) && p >= 0 && Cut(es, s, p + 1, es[m].key.user) else p == -1
    ensures BarrenBack(es, s, if typ == Value then m + 1 else 0, c)
    ensures typ == Value ==> m < c && Yields(es, s, m) && Cut(es, s, p + 1, es[m].key.user)
    ensures typ == Value ==> savedKey == Some(es[m].key.user) && savedValue == es[m].value
  {
    if typ == Value && !stopped { ScanEnds(es, s, c, m, savedKey, savedValue); }
  }

  // ------------------------------------------------------------ the iterator

  class DbIterator {
    const iter: MergingIterator
    const sequence: nat
    var savedKey: Option<UserKey>
    var savedValue: string
    var forward: bool
    var valid: bool
    /** The index of the entry that yields the current row. */
    ghost var at: nat

    ghost function Internal(): seq<Entry>
      reads this, iter
    {
      Merged(iter.runs)
    }

    /** How much of the internal sequence lies up to and including its position; 0 when invalid. */
    ghost function UpTo(): nat
      reads this, iter
    {
      if iter.IsValid() then iter.Position() + 1 else 0
    }

    ghost predicate Valid()
      reads this, iter
    {
      iter.Valid() &&
      (valid ==> Yields(Internal(), sequence, at) && if forward then OnRow() else BeforeRow())
    }

    /** Moving forward, the internal iterator stands on the entry that yields the row. */
    ghost predicate OnRow()
      reads this, iter
    {
      iter.IsValid() && iter.Position() == at
    }

    /** In reverse, it stands before the entries of the row, which is saved. */
    ghost predicate BeforeRow()
      requires at < |Internal()|
      reads this, iter
    {
      var e := Internal()[at];
      savedKey == Some(e.key.user) && savedValue == e.value && Cut(Internal(), sequence, UpTo(), e.key.user)
    }

    /** The index of the current row; the number of rows when there is none. */
    ghost function Position(): nat
      requires valid ==> at < |Internal()|
      reads this, iter
    {
      if valid then |Rows(Internal(), sequence, at)| else |AllRows(Internal(), sequence)|
    }

    constructor (iter: MergingIterator, sequence: nat)
      requires iter.Valid()
      ensures Valid() && this.iter == iter && this.sequence == sequence && !valid
    {
      this.iter := iter;
      this.sequence := sequence;
      savedKey := None;
      savedValue := "";
      forward := true;
      valid := false;
    }

    lemma InternalIsSorted()
      requires iter.Valid()
      ensures Sorted(Internal())
    {
      hide Merged;
      MergedSpec(iter.runs);
    }

    /** Moves on from index p to the next entry that yields, skipping what a deletion or the row
        just shown hides. */
    method FindNextUserEntry(skip: bool, ghost next: nat)
      requires iter.Valid() && iter.IsValid() && forward
      requires SkipOk(Internal(), sequence, iter.Position(), next, skip, savedKey)
      modifies this, iter
      ensures Valid() && forward
      ensures valid ==> old(iter.Position()) <= at && next <= at < |Internal()|
      ensures Barren(Internal(), sequence, old(iter.Position()), next, if valid then at else |Internal()|)
    {
      hide Merged, Sorted, SkipOk, Yields, SeekIndex, Mergeable, Less, Barren, MergingIterator.Valid, MergingIterator.InPlace;
      ghost var es, p := Internal(), iter.Position();
      ghost var start := p;
      var skipping := skip;
      InternalIsSorted();
      SkipMeans(es, sequence, p, next, skipping, savedKey);
      while iter.IsValid()
        invariant skipping ==> savedKey.Some?
        invariant iter.Valid() && forward && p <= |es| && start <= p
        invariant if iter.IsValid() then p == iter.Position() else p == |es|
        invariant SkipOk(es, sequence, p, next, skipping, savedKey)
        invariant Barren(es, sequence, start, next, p)
        decreases |es| - p
      {
        iter.CurrentIsMerged();
        var ikey := iter.Current().key;
        BarrenStep(es, sequence, start, next, p);
        if ikey.sn <= sequence {
          match ikey.typ
          case Deletion =>
            SkipDeleted(es, sequence, p, next, skipping, savedKey);
            savedKey := Some(ikey.user);
            skipping := true;
          case Value =>
            if skipping && ikey.user <= savedKey.value {
              SkipHidden(es, sequence, p, next, savedKey);
            } else {
              NotHiddenYields(es, sequence, p, next, skipping, savedKey);
              valid := true;
              at := p;
              savedKey := None;
              return;
            }
        } else {
          SkipTooNew(es, sequence, p, next, skipping, savedKey);
        }
        iter.Next();
        p := p + 1;
      }
      savedKey := None;
      valid := false;
    }
  
    /** Moves back from the internal position to the last entry before it that yields. */
    method FindPrevUserEntry()
      requires iter.Valid() && !forward
      modifies this, iter
      ensures Valid() && (!valid ==> forward)
      ensures valid ==> !forward && at < old(UpTo())
      ensures BarrenBack(Internal(), sequence, if valid then at + 1 else 0, old(UpTo()))
    {
      hide Merged, Sorted, ScanOk, Yields, SeekIndex, Mergeable, Less, Cut, BarrenBack, MergingIterator.Valid,
        MergingIterator.InPlace, MergingIterator.Ready, MergingIterator.Position, MergingIterator.Current;
      ghost var es, c := Internal(), UpTo();
      ghost var p: int := c as int - 1;
      ghost var m: nat := c;
      var valueType := Deletion;
      InternalIsSorted();
      iter.ValidWithinMerged();
      ScanStarts(es, sequence, c, savedKey, savedValue);
      while iter.IsValid()
        invariant iter.Valid() && !forward && UpTo() == p + 1
        invariant ScanOk(es, sequence, c, p, m, valueType, savedKey, savedValue)
        decreases p
      {
        iter.CurrentIsMerged();
        ScanMeans(es, sequence, c, p, m, valueType, savedKey, savedValue);
        var e := iter.Current();
        if e.key.sn <= sequence {
          if valueType != Deletion && e.key.user < savedKey.value {
            // A value of a later user key is saved.
            ScanStops(es, sequence, c, p, m, savedKey, savedValue);
            break;
          }
          ghost var k, v := savedKey, savedValue;
          ghost var t := valueType;
          valueType := e.key.typ;
          if valueType == Deletion {
            savedKey := None;
            savedValue := "";
          } else {
            savedKey := Some(e.key.user);
            savedValue := e.value;
          }
          ScanTakes(es, sequence, c, p, m, t, k, v, savedKey, savedValue);
          m := p;
        } else {
          ScanPasses(es, sequence, c, p, m, valueType, savedKey, savedValue);
        }
        iter.Prev();
        iter.ValidWithinMerged();
        p := p - 1;
      }
      ScanMeans(es, sequence, c, p, m, valueType, savedKey, savedValue);
      ScanResult(es, sequence, c, p, m, valueType, savedKey, savedValue, iter.IsValid());
      if valueType == Deletion {
        valid := false;
        savedKey := None;
        savedValue := "";
        forward := true;
      } else {
        valid := true;
        at := m;
      }
    }
  
    method SeekToFirst()
      requires Valid()
      modifies this, iter
      ensures Valid() && Position() == 0
    {
      hide Merged, Sorted, SkipOk, Yields, SeekIndex, Mergeable, Less, MergingIterator.InPlace;
      forward := true;
      savedValue := "";
      iter.SeekToFirst();
      iter.ValidWithinMerged();
      ghost var es := Internal();
      if iter.IsValid() {
        SkipNothing(es, sequence, 0, savedKey);
        FindNextUserEntry(false, 0);
      } else {
        valid := false;
      }
      NoRowsBetween(es, sequence, 0, if valid then at else |es|);
    }

    method SeekToLast()
      requires Valid()
      modifies this, iter
      ensures Valid() && Position() == StepBack(|AllRows(Internal(), sequence)|, |AllRows(Internal(), sequence)|)
    {
      hide Merged, Sorted, Yields, SeekIndex, Mergeable, Less, Cut, MergingIterator.InPlace;
      forward := false;
      savedValue := "";
      iter.SeekToLast();
      iter.ValidWithinMerged();
      ghost var es := Internal();
      FindPrevUserEntry();
      if valid { OneRowLater(es, sequence, at, |es|); } else { NoRowsBetween(es, sequence, 0, |es|); }
    }

    /** Moves to the first row at or after the target. */
    method Seek(target: UserKey)
      requires Valid()
      modifies this, iter
      ensures Valid() && Position() <= |AllRows(Internal(), sequence)|
      ensures forall i :: 0 <= i < |AllRows(Internal(), sequence)| ==>
        (i < Position() <==> AllRows(Internal(), sequence)[i].user < target)
    {
      hide Merged, Sorted, SkipOk, Yields, SeekIndex, Mergeable, Less, MergingIterator.InPlace;
      forward := true;
      savedValue := "";
      iter.Seek(SeekKey(target, sequence));
      iter.ValidWithinMerged();
      InternalIsSorted();
      ghost var es, p := Internal(), iter.Position();
      if iter.IsValid() {
        SkipFromTarget(es, sequence, target, savedKey);
        FindNextUserEntry(false, p);
      } else {
        valid := false;
      }
      RowsBeforeTarget(es, sequence, target);
      NoRowsBetween(es, sequence, p, if valid then at else |es|);
    }

    /** Moves to the next row, whichever way the iterator was moving. */
    method Next()
      requires Valid() && valid
      modifies this, iter
      ensures Valid() && Position() == old(Position()) + 1
    {
      hide Merged, Sorted, SkipOk, Yields, SeekIndex, Mergeable, Less, Cut, MergingIterator.InPlace;
      ghost var es, q, c := Internal(), at, UpTo();
      InternalIsSorted();
      iter.ValidWithinMerged();
      YieldsVisible(es, sequence, q);
      if !forward {
        SkipFromCut(es, sequence, c, q);
        forward := true;
        if !iter.IsValid() {
          iter.SeekToFirst();
        } else {
          iter.Next();
        }
      } else {
        SkipYielded(es, sequence, q);
        iter.CurrentIsMerged();
        savedKey := Some(iter.Current().key.user);
        iter.Next();
      }
      iter.ValidWithinMerged();
      if !iter.IsValid() {
        valid := false;
        savedKey := None;
        OneRowLater(es, sequence, q, |es|);
        return;
      }
      FindNextUserEntry(true, q + 1);
      OneRowLater(es, sequence, q, if valid then at else |es|);
    }

    /** Goes back over the entries of the current user key, down to one of a smaller key if there is any. */
    method LeaveUserKey(ghost q: nat) returns (more: bool)
      requires iter.Valid() && iter.IsValid() && iter.Position() == q && Yields(Internal(), sequence, q)
      modifies this`savedKey, iter
      ensures iter.Valid() && more == iter.IsValid() && UpTo() <= q && BarrenBack(Internal(), sequence, UpTo(), q)
    {
      hide Merged, Sorted, Yields, SeekIndex, Mergeable, Less, Cut, MergingIterator.InPlace, MergingIterator.Ready;
      ghost var es := Internal();
      InternalIsSorted();
      YieldsVisible(es, sequence, q);
      iter.CurrentIsMerged();
      savedKey := Some(iter.Current().key.user);
      more := true;
      ghost var c := q;
      while true
        invariant iter.Valid() && iter.IsValid() && iter.Position() <= q && savedKey == Some(es[q].key.user)
        invariant forall i :: iter.Position() <= i < q ==> es[i].key.user == es[q].key.user
        decreases iter.Position()
      {
        iter.ValidWithinMerged();
        c := iter.Position();
        SameUserBarren(es, sequence, q, c);
        iter.Prev();
        iter.ValidWithinMerged();
        if !iter.IsValid() {
          return false;
        }
        iter.CurrentIsMerged();
        if iter.Current().key.user < savedKey.value {
          return;
        }
        SameUserBetween(es, c - 1, c - 1, q);
      }
    }

    /** Moves to the previous row; before the first there is none. */
    method Prev()
      requires Valid() && valid
      modifies this, iter
      ensures Valid() && Position() == StepBack(old(Position()), |AllRows(Internal(), sequence)|)
    {
      hide Merged, Sorted, Yields, SeekIndex, Mergeable, Less, Cut, MergingIterator.InPlace, MergingIterator.Ready;
      ghost var es, q := Internal(), at;
      InternalIsSorted();
      iter.ValidWithinMerged();
      YieldsVisible(es, sequence, q);
      RowAt(es, sequence, q, |es|);
      if forward {
        var more := LeaveUserKey(q);
        if !more {
          valid := false;
          savedKey := None;
          savedValue := "";
          NoRowsBetween(es, sequence, 0, q);
          return;
        }
        forward := false;
      } else {
        NothingYieldsFromCut(es, sequence, UpTo(), q);
      }
      FindPrevUserEntry();
      if valid { OneRowLater(es, sequence, at, q); } else { NoRowsBetween(es, sequence, 0, q); }
    }

    function Key(): UserKey
      requires Valid() && valid
      reads this, iter
    {
      if forward then iter.Current().key.user else savedKey.value
    }

    function Value(): string
      requires Valid() && valid
      reads this, iter
    {
      if forward then iter.Current().value else savedValue
    }

    /** What the iterator shows is the row at its position. */
    lemma ShowsRow()
      requires Valid() && valid
      ensures Position() < |AllRows(Internal(), sequence)| && AllRows(Internal(), sequence)[Position()] == Row(Key(), Value())
    {
      hide Merged, Yields, SeekIndex, Mergeable, Less, Cut, MergingIterator.InPlace;
      YieldsVisible(Internal(), sequence, at);
      RowAt(Internal(), sequence, at, |Internal()|);
      if forward { iter.CurrentIsMerged(); }
    }
  }
}
