/** A write batch as bytes: sequence number, count, then one record for each operation. */
module WriteBatches {
  import opened Keys
  import opened Coding

  datatype BatchOp = PutOp(key: Bytes, value: Bytes) | DeleteOp(key: Bytes)

  datatype Insertion = Insertion(sn: nat, op: BatchOp)

  const HEADER: nat := 12
  const MAX_COUNT: nat := 0x8000_0000

  predicate OpOk(x: BatchOp) {
    |x.key| < 0x1_0000_0000 && (x.PutOp? ==> |x.value| < 0x1_0000_0000)
  }

  function OpBytes(x: BatchOp): Bytes {
    match x
    case PutOp(k, v) => [1] + (Prefixed(k) + Prefixed(v))
    case DeleteOp(k) => [0] + Prefixed(k)
  }

  function OpsBytes(xs: seq<BatchOp>): Bytes {
    if xs == [] then [] else OpsBytes(xs[..|xs| - 1]) + OpBytes(xs[|xs| - 1])
  }

  lemma OpsStep(xs: seq<BatchOp>, i: nat)
    requires i < |xs|
    ensures OpsBytes(xs[..i + 1]) == OpsBytes(xs[..i]) + OpBytes(xs[i])
  {
    hide OpBytes;
    assert xs[..i + 1][..i] == xs[..i];
  }

  lemma {:induction false} OpsAppend(xs: seq<BatchOp>, ys: seq<BatchOp>)
    ensures OpsBytes(xs + ys) == OpsBytes(xs) + OpsBytes(ys)
  {
    hide OpBytes;
    if ys == [] {
      assert xs + ys == xs;
    } else {
      var n := |ys| - 1;
      assert (xs + ys)[..|xs| + n] == xs + ys[..n];
      OpsAppend(xs, ys[..n]);
    }
  }

  lemma OpsGrow(xs: seq<BatchOp>, i: nat)
    requires i <= |xs|
    ensures OpsBytes(xs[..i]) <= OpsBytes(xs)
  {
    hide OpsBytes;
    OpsAppend(xs[..i], xs[i..]);
    assert xs == xs[..i] + xs[i..];
  }

  /** Operation i of the batch stands after those before it; the bytes end with the operations. */
  lemma OpStands(rep: Bytes, xs: seq<BatchOp>, i: nat)
    requires |rep| >= HEADER && rep[HEADER..] == OpsBytes(xs) && i <= |xs|
    ensures var p := HEADER + |OpsBytes(xs[..i])|;
      p <= |rep| && (p == |rep| <==> i == |xs|) &&
      (i < |xs| ==> StandsAt(rep, p, |rep|, OpBytes(xs[i])) && HEADER + |OpsBytes(xs[..i + 1])| == p + |OpBytes(xs[i])|)
  {
    hide OpsBytes, OpBytes;
    var all, p := OpsBytes(xs), |OpsBytes(xs[..i])|;
    OpsGrow(xs, i);
    if i < |xs| {
      OpsStep(xs, i);
      OpsGrow(xs, i + 1);
      var upto := OpsBytes(xs[..i + 1]);
      assert all[..|upto|] == upto;
      assert all[p..|upto|] == upto[p..] == OpBytes(xs[i]);
      assert rep[HEADER + p..HEADER + |upto|] == all[p..|upto|];
      SomeBytes(xs[i]);
    } else {
      assert xs[..i] == xs;
    }
  }

  lemma SomeBytes(x: BatchOp)
    ensures |OpBytes(x)| > 0
  {
  }

  /** rep holds the operations, their count, and the number of the first. */
  ghost predicate Holds(rep: Bytes, xs: seq<BatchOp>, sn: nat) {
    |rep| >= HEADER && rep[HEADER..] == OpsBytes(xs) && (forall x :: x in xs ==> OpOk(x)) && |xs| < MAX_COUNT &&
    CountOf(rep) == |xs| && SequenceOf(rep) == sn
  }

  function CountOf(rep: Bytes): Word
    requires |rep| >= HEADER
  {
    DecodeFixed32(rep[8..12])
  }

  function SequenceOf(rep: Bytes): nat
    requires |rep| >= HEADER
  {
    DecodeFixed64(rep[..8])
  }

  function SetCount(rep: Bytes, n: Word): (r: Bytes)
    requires |rep| >= HEADER
    ensures |r| == |rep| && r[HEADER..] == rep[HEADER..] && SequenceOf(r) == SequenceOf(rep) && CountOf(r) == n
  {
    Fixed32RoundTrip(n);
    var r := rep[..8] + EncodeFixed32(n) + rep[12..];
    assert r[8..12] == EncodeFixed32(n) && r[..8] == rep[..8] && r[12..] == rep[12..];
    r
  }

  function SetSequence(rep: Bytes, sn: nat): (r: Bytes)
    requires |rep| >= HEADER && sn < TWO_64
    ensures |r| == |rep| && r[HEADER..] == rep[HEADER..] && SequenceOf(r) == sn && CountOf(r) == CountOf(rep)
  {
    Fixed64RoundTrip(sn);
    var r := Fixed64Bytes(sn) + rep[8..];
    assert r[..8] == Fixed64Bytes(sn) && r[8..12] == rep[8..12] && r[12..] == rep[12..];
    r
  }

  class WriteBatch {
    var rep: Bytes
    ghost var ops: seq<BatchOp>

    ghost predicate Valid()
      reads this
    {
      |rep| >= HEADER && Holds(rep, ops, SequenceOf(rep))
    }

    constructor ()
      ensures Valid() && ops == [] && SequenceOf(rep) == 0
    {
      rep := seq(HEADER, _ => 0);
      ops := [];
      ZeroHeader(seq(HEADER, _ => 0));
    }

    /** WriteBatchInternal::SetContents. */
    constructor Contents(contents: Bytes, ghost xs: seq<BatchOp>)
      requires |contents| >= HEADER
      ensures rep == contents && ops == xs && (Holds(contents, xs, SequenceOf(contents)) ==> Valid())
    {
      rep := contents;
      ops := xs;
    }

    /** WriteBatchInternal::SetSequence, before the batch is logged. */
    method Number(sn: nat)
      requires Valid() && sn < TWO_64
      modifies this`rep
      ensures Valid() && SequenceOf(rep) == sn
    {
      rep := SetSequence(rep, sn);
    }

    method Put(key: Bytes, value: Bytes)
      requires Valid() && OpOk(PutOp(key, value)) && |ops| + 1 < MAX_COUNT
      modifies this
      ensures Valid() && ops == old(ops) + [PutOp(key, value)] && SequenceOf(rep) == SequenceOf(old(rep))
    {
      hide OpsBytes, OpOk, SetCount, Prefixed, CountOf, SequenceOf;
      rep := SetCount(rep, (CountOf(rep) + 1) % 0x1_0000_0000);
      ghost var before := rep;
      rep := rep + [1];
      rep := rep + Prefixed(key);
      rep := rep + Prefixed(value);
      PutTogether(before, 1, Prefixed(key), Prefixed(value));
      OneMoreOp(before, rep, ops, PutOp(key, value));
      ops := ops + [PutOp(key, value)];
    }

    method Delete(key: Bytes)
      requires Valid() && OpOk(DeleteOp(key)) && |ops| + 1 < MAX_COUNT
      modifies this
      ensures Valid() && ops == old(ops) + [DeleteOp(key)] && SequenceOf(rep) == SequenceOf(old(rep))
    {
      hide OpsBytes, OpOk, SetCount, Prefixed, CountOf, SequenceOf;
      rep := SetCount(rep, (CountOf(rep) + 1) % 0x1_0000_0000);
      ghost var before := rep;
      rep := rep + [0];
      rep := rep + Prefixed(key);
      PutTogether(before, 0, Prefixed(key), []);
      OneMoreOp(before, rep, ops, DeleteOp(key));
      ops := ops + [DeleteOp(key)];
    }

    /** The operations of source after those of this batch. */
    method Append(source: WriteBatch)
      requires Valid() && source.Valid() && source != this && |ops| + |source.ops| < MAX_COUNT
      modifies this
      ensures Valid() && ops == old(ops) + source.ops && SequenceOf(rep) == SequenceOf(old(rep))
    {
      hide OpsBytes, OpOk, SetCount, CountOf, SequenceOf;
      NoOverflow(|ops|, |source.ops|);
      rep := SetCount(rep, (CountOf(rep) + CountOf(source.rep)) % 0x1_0000_0000);
      ghost var before := rep;
      rep := rep + source.rep[HEADER..];
      OpsAppend(ops, source.ops);
      HeaderStays(before, source.rep[HEADER..]);
      ops := ops + source.ops;
    }

    /** The handler's calls, in order. Of a batch that was built, one for each operation. */
    method Iterate() returns (ok: bool, handled: seq<BatchOp>)
      ensures Valid() ==> ok && handled == ops
    {
      hide OpsBytes, OpOk, OpBytes;
      handled := [];
      if |rep| < HEADER {
        return false, handled;
      }
      ghost var near := Valid();
      if near { OpStands(rep, ops, 0); }
      assert OpsBytes(ops[..0]) == [] by { NoOps(ops); }
      var p := HEADER;
      var found := 0;
      while p < |rep|
        invariant HEADER <= p <= |rep| && found == |handled|
        invariant near ==> found <= |ops| && handled == ops[..found] && p == HEADER + |OpsBytes(ops[..found])|
        decreases |rep| - p
      {
        if near { OpStands(rep, ops, found); }
        found := found + 1;
        var x;
        x, p := GetOp(rep, p, if near then ops[found - 1] else DeleteOp([]));
        if x.None? {
          return false, handled;
        }
        handled := handled + [x.value];
      }
      if near { OpStands(rep, ops, found); }
      ok := found == if CountOf(rep) < MAX_COUNT then CountOf(rep) else CountOf(rep) - 0x1_0000_0000;
    }

    /** WriteBatchInternal::InsertInto: consecutive sequence numbers, from the batch's own. */
    method InsertInto() returns (ok: bool, added: seq<Insertion>)
      requires |rep| >= HEADER
      ensures Valid() ==> ok && |added| == |ops| && forall i :: 0 <= i < |ops| ==> added[i] == Insertion(SequenceOf(rep) + i, ops[i])
    {
      var handled;
      ok, handled := Iterate();
      var sn := SequenceOf(rep);
      added := [];
      for i := 0 to |handled|
        invariant |added| == i && sn == SequenceOf(rep) + i
        invariant forall j :: 0 <= j < i ==> added[j] == Insertion(SequenceOf(rep) + j, handled[j])
      {
        added := added + [Insertion(sn, handled[i])];
        sn := sn + 1;
      }
    }
  }

  lemma NoOverflow(m: nat, n: nat)
    requires m + n < MAX_COUNT
    ensures (m + n) % 0x1_0000_0000 == m + n
  {
  }

  /** A tag and the strings that belong to it. */
  method GetOp(b: Bytes, p: nat, ghost x: BatchOp) returns (r: Option<BatchOp>, q: nat)
    requires p < |b|
    ensures p < q <= |b|
    ensures OpOk(x) && StandsAt(b, p, |b|, OpBytes(x)) ==> r == Some(x) && q == p + |OpBytes(x)|
  {
    hide Prefixed, StandsAt;
    ghost var v := if x.PutOp? then x.value else [];
    ghost var tag: Byte := if x.PutOp? then 1 else 0;
    ghost var rest := if x.PutOp? then Prefixed(x.key) + Prefixed(v) else Prefixed(x.key);
    StandsInTurn(b, p, |b|, [tag], rest);
    StandsInTurn(b, p + 1, |b|, Prefixed(x.key), Prefixed(v));
    ByteStands(b, p, tag);
    r, q := None, p + 1;
    var key, value;
    if b[p] == 1 {
      key, q := GetLengthPrefixed(b, p + 1, |b|, x.key);
      if key.None? { return; }
      value, q := GetLengthPrefixed(b, q, |b|, v);
      if value.None? { return; }
      r := Some(PutOp(key.value, value.value));
    } else if b[p] == 0 {
      key, q := GetLengthPrefixed(b, p + 1, |b|, x.key);
      if key.None? { return; }
      r := Some(DeleteOp(key.value));
    }
  }

  lemma ByteStands(b: Bytes, p: nat, x: Byte)
    requires p < |b|
    ensures StandsAt(b, p, |b|, [x]) ==> b[p] == x
  {
  }

  lemma NoOps(xs: seq<BatchOp>)
    ensures OpsBytes(xs[..0]) == []
  {
  }

  lemma ZeroHeader(rep: Bytes)
    requires |rep| == HEADER && forall i :: 0 <= i < HEADER ==> rep[i] == 0
    ensures CountOf(rep) == 0 && SequenceOf(rep) == 0
  {
    var low, high := rep[..8][..4], rep[..8][4..8];
    assert DecodeFixed32(low) == 0 && DecodeFixed32(high) == 0;
  }

  lemma PutTogether(b: Bytes, tag: Byte, k: Bytes, v: Bytes)
    ensures b + [tag] + k == b + ([tag] + k) && b + [tag] + k + v == b + ([tag] + (k + v))
  {
  }

  lemma HeaderStays(rep: Bytes, more: Bytes)
    requires |rep| >= HEADER
    ensures CountOf(rep + more) == CountOf(rep) && SequenceOf(rep + more) == SequenceOf(rep) && (rep + more)[HEADER..] == rep[HEADER..] + more
  {
    assert (rep + more)[8..12] == rep[8..12] && (rep + more)[..8] == rep[..8];
  }

  lemma OneMoreOp(before: Bytes, rep: Bytes, xs: seq<BatchOp>, x: BatchOp)
    requires |before| >= HEADER && before[HEADER..] == OpsBytes(xs) && rep == before + OpBytes(x)
    ensures rep[HEADER..] == OpsBytes(xs + [x]) && CountOf(rep) == CountOf(before) && SequenceOf(rep) == SequenceOf(before)
  {
    hide OpBytes;
    HeaderStays(before, OpBytes(x));
    assert (xs + [x])[..|xs|] == xs;
  }
}
