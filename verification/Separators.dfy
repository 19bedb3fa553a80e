/** The orders of user keys and of internal keys as bytes, and keys that separate blocks. */
module Separators {
  import opened Coding
  import opened BlockFormat

  // ------------------------------------------------------------ the bytewise order

  /** Slice::compare: by the first byte that differs, and by length when none does. */
  predicate BytesLess(a: Bytes, b: Bytes) {
    var i := Common(a, b, 0);
    i < |b| && (i == |a| || a[i] < b[i])
  }

  /** The common prefix is as long as it can be. */
  lemma CommonIs(a: Bytes, b: Bytes, i: nat)
    requires i <= |a| && i <= |b| && a[..i] == b[..i] && (i == |a| || i == |b| || a[i] != b[i])
    ensures Common(a, b, 0) == i
  {
    CommonIsPrefix(a, b, 0);
    var r := Common(a, b, 0);
    Agree(a, b, i);
    Agree(a, b, r);
  }

  lemma Agree(a: Bytes, b: Bytes, n: nat)
    requires n <= |a| && n <= |b| && a[..n] == b[..n]
    ensures forall t :: 0 <= t < n ==> a[t] == b[t]
  {
    assert forall t :: 0 <= t < n ==> a[t] == a[..n][t] && b[t] == b[..n][t];
  }

  lemma BytesOrder(a: Bytes, b: Bytes)
    ensures !(BytesLess(a, b) && BytesLess(b, a)) && !BytesLess(a, a)
    ensures !BytesLess(a, b) && !BytesLess(b, a) ==> a == b
  {
    CommonIsPrefix(a, b, 0);
    var i := Common(a, b, 0);
    CommonIs(b, a, i);
    CommonIs(a, a, |a|);
    if i == |a| && i == |b| { assert a == a[..i] == b[..i] == b; }
  }

  lemma BytesTransitive(a: Bytes, b: Bytes, c: Bytes)
    requires BytesLess(a, b) && BytesLess(b, c)
    ensures BytesLess(a, c)
  {
    CommonIsPrefix(a, b, 0);
    CommonIsPrefix(b, c, 0);
    var i, j := Common(a, b, 0), Common(b, c, 0);
    var m := if i < j then i else j;
    assert a[..m] == a[..i][..m] == b[..i][..m] == b[..m];
    assert b[..m] == b[..j][..m] == c[..j][..m] == c[..m];
    if i < j { assert b[i] == b[..j][i] == c[..j][i] == c[i]; }
    if j < i { assert a[j] == a[..i][j] == b[..i][j] == b[j]; }
    CommonIs(a, c, m);
  }

  /** BytewiseComparator's FindShortestSeparator. */
  method FindShortestSeparator(start: Bytes, limit: Bytes) returns (r: Bytes)
    ensures r == start || (BytesLess(start, r) && BytesLess(r, limit) && |r| <= |start|)
  {
    var minLength := if |start| < |limit| then |start| else |limit|;
    var diffIndex := 0;
    while diffIndex < minLength && start[diffIndex] == limit[diffIndex]
      invariant diffIndex <= minLength && start[..diffIndex] == limit[..diffIndex]
    {
      diffIndex := diffIndex + 1;
    }
    r := start;
    if diffIndex < minLength {
      var diffByte := start[diffIndex];
      if diffByte < 0xFF && diffByte + 1 < limit[diffIndex] {
        r := start[..diffIndex] + [diffByte + 1];
        assert r[..diffIndex] == start[..diffIndex];
        CommonIs(start, r, diffIndex);
        CommonIs(r, limit, diffIndex);
      }
    }
  }

  /** BytewiseComparator's FindShortSuccessor. */
  method FindShortSuccessor(key: Bytes) returns (r: Bytes)
    ensures r == key || (BytesLess(key, r) && |r| <= |key|)
  {
    for i := 0 to |key| {
      var byte := key[i];
      if byte != 0xFF {
        r := key[..i] + [byte + 1];
        assert r[..i] == key[..i];
        CommonIs(key, r, i);
        return;
      }
    }
    r := key;
  }

  // ------------------------------------------------------------ internal keys

  /** PackSequenceAndType(kMaxSequenceNumber, kValueTypeForSeek): no number sorts before it. */
  const FIRST_NUMBER: nat := 0xFF_FFFF_FFFF_FFFF * 0x100 + 1

  predicate LongEnough(k: Bytes) {
    |k| >= 8
  }

  function UserOf(k: Bytes): Bytes {
    if |k| >= 8 then k[..|k| - 8] else []
  }

  /** Sequence number and type, packed. */
  function NumberOf(k: Bytes): nat {
    if |k| >= 8 then DecodeFixed64(k[|k| - 8..]) else 0
  }

  /** InternalKeyComparator::Compare: ascending by user key, descending by number. */
  predicate InternalLess(a: Bytes, b: Bytes) {
    BytesLess(UserOf(a), UserOf(b)) || (UserOf(a) == UserOf(b) && NumberOf(a) > NumberOf(b))
  }

  lemma InternalTransitive(a: Bytes, b: Bytes, c: Bytes)
    requires InternalLess(a, b) && InternalLess(b, c)
    ensures InternalLess(a, c)
  {
    hide BytesLess, UserOf, NumberOf;
    if BytesLess(UserOf(a), UserOf(b)) && BytesLess(UserOf(b), UserOf(c)) { BytesTransitive(UserOf(a), UserOf(b), UserOf(c)); }
  }

  lemma InternalOrder(a: Bytes, b: Bytes)
    ensures !(InternalLess(a, b) && InternalLess(b, a)) && !InternalLess(a, a)
    ensures !InternalLess(a, b) && !InternalLess(b, a) ==> UserOf(a) == UserOf(b) && NumberOf(a) == NumberOf(b)
  {
    hide BytesLess, UserOf, NumberOf;
    BytesOrder(UserOf(a), UserOf(b));
    BytesOrder(UserOf(a), UserOf(a));
  }

  /** Either start itself, or its user key is strictly between those of start and limit. */
  ghost predicate Separates(r: Bytes, start: Bytes, limit: Bytes) {
    r == start || (LongEnough(r) && BytesLess(UserOf(start), UserOf(r)) && BytesLess(UserOf(r), UserOf(limit)))
  }

  lemma Tacked(user: Bytes)
    ensures var k := user + Fixed64Bytes(FIRST_NUMBER); LongEnough(k) && UserOf(k) == user && NumberOf(k) == FIRST_NUMBER
  {
    hide Fixed64Bytes, DecodeFixed64;
    Fixed64RoundTrip(FIRST_NUMBER);
    var k := user + Fixed64Bytes(FIRST_NUMBER);
    assert k[..|k| - 8] == user && k[|k| - 8..] == Fixed64Bytes(FIRST_NUMBER);
  }

  /** InternalKeyComparator's FindShortestSeparator. */
  method InternalSeparator(start: Bytes, limit: Bytes) returns (r: Bytes)
    requires LongEnough(start) && LongEnough(limit)
    ensures Separates(r, start, limit) && |r| <= |start|
  {
    hide BytesLess, Fixed64Bytes;
    var tmp := FindShortestSeparator(UserOf(start), UserOf(limit));
    r := start;
    if |tmp| < |UserOf(start)| && BytesLess(UserOf(start), tmp) {
      Tacked(tmp);
      r := tmp + Fixed64Bytes(FIRST_NUMBER);
    }
  }

  /** InternalKeyComparator's FindShortSuccessor. */
  method InternalSuccessor(key: Bytes) returns (r: Bytes)
    requires LongEnough(key)
    ensures (r == key || (LongEnough(r) && BytesLess(UserOf(key), UserOf(r)))) && |r| <= |key|
  {
    hide BytesLess, Fixed64Bytes;
    var tmp := FindShortSuccessor(UserOf(key));
    r := key;
    if |tmp| < |UserOf(key)| && BytesLess(UserOf(key), tmp) {
      Tacked(tmp);
      r := tmp + Fixed64Bytes(FIRST_NUMBER);
    }
  }
}
