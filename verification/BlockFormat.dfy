/** The format of a table block: prefix-compressed entries, then the offsets of the restart points. */
module BlockFormat {
  import opened Coding

  datatype Pair = Pair(key: Bytes, value: Bytes)

  const MAX_SIZE: nat := 0x1_0000_0000

  /** The length of the common prefix, known to be at least i. */
  function Common(a: Bytes, b: Bytes, i: nat): (r: nat)
    requires i <= |a| && i <= |b|
    ensures i <= r <= |a| && r <= |b|
    decreases |a| - i
  {
    if i < |a| && i < |b| && a[i] == b[i] then Common(a, b, i + 1) else i
  }

  lemma {:induction false} CommonIsPrefix(a: Bytes, b: Bytes, i: nat)
    requires i <= |a| && i <= |b| && a[..i] == b[..i]
    ensures var r := Common(a, b, i); a[..r] == b[..r] && (r == |a| || r == |b| || a[r] != b[r])
    decreases |a| - i
  {
    if i < |a| && i < |b| && a[i] == b[i] {
      assert a[..i + 1] == a[..i] + [a[i]] && b[..i + 1] == b[..i] + [b[i]];
      CommonIsPrefix(a, b, i + 1);
    }
  }

  /** What an entry that shares that many bytes with the key before it looks like. */
  function EntryBytes(shared: nat, p: Pair): Bytes
    requires shared <= |p.key|
  {
    Header(shared, |p.key| - shared, |p.value|) + p.key[shared..] + p.value
  }

  function Header(shared: nat, nonShared: nat, valueLength: nat): (r: Bytes)
    ensures |r| >= 3
  {
    Varint(shared) + Varint(nonShared) + Varint(valueLength)
  }

  /** How much entry i shares with the one before: nothing at a restart point. */
  function SharedAt(es: seq<Pair>, starts: seq<nat>, i: nat): (r: nat)
    requires i < |es|
    ensures r <= |es[i].key|
  {
    if i == 0 || i in starts then 0 else Common(es[i - 1].key, es[i].key, 0)
  }

  /** The entries of a block whose restart points are the given ones. */
  function Body(es: seq<Pair>, starts: seq<nat>): Bytes {
    if es == [] then []
    else
      var n := |es| - 1;
      Body(es[..n], starts) + EntryBytes(SharedAt(es, starts, n), es[n])
  }

  function Off(es: seq<Pair>, starts: seq<nat>, i: nat): nat
    requires i <= |es|
  {
    |Body(es[..i], starts)|
  }

  function Fixed32s(ws: seq<Word>): Bytes {
    if ws == [] then [] else Fixed32s(ws[..|ws| - 1]) + EncodeFixed32(ws[|ws| - 1])
  }

  /** Restart points start at the first entry and ascend. */
  ghost predicate StartsOk(es: seq<Pair>, starts: seq<nat>) {
    |starts| > 0 && starts[0] == 0 && (forall j :: 0 <= j < |starts| ==> starts[j] == 0 || starts[j] < |es|) &&
    forall j, k :: 0 <= j < k < |starts| ==> starts[j] < starts[k]
  }

  /** The offsets of the restart points. */
  ghost predicate AreOffsets(rs: seq<Word>, es: seq<Pair>, starts: seq<nat>) {
    |rs| == |starts| && forall j :: 0 <= j < |rs| ==> starts[j] <= |es| && rs[j] == Off(es, starts, starts[j])
  }

  // ------------------------------------------------------------ offsets

  lemma {:induction false} BodyStep(es: seq<Pair>, starts: seq<nat>, i: nat)
    requires i < |es|
    ensures Body(es[..i + 1], starts) == Body(es[..i], starts) + EntryBytes(SharedAt(es, starts, i), es[i])
  {
    hide EntryBytes;
    assert es[..i + 1][..i] == es[..i] && es[..i + 1][i] == es[i];
  }

  lemma {:induction false} OffsetsGrow(es: seq<Pair>, starts: seq<nat>, i: nat, j: nat)
    requires i <= j <= |es|
    ensures Body(es[..i], starts) <= Body(es[..j], starts)
    ensures Off(es, starts, i) + 3 * (j - i) <= Off(es, starts, j)
  {
    hide Body, SharedAt;
    if i < j {
      OffsetsGrow(es, starts, i, j - 1);
      BodyStep(es, starts, j - 1);
    }
  }

  /** Offsets are in the order of the entries. */
  lemma OffsetOrder(es: seq<Pair>, starts: seq<nat>, i: nat, j: nat)
    requires i <= |es| && j <= |es|
    ensures Off(es, starts, i) < Off(es, starts, j) <==> i < j
  {
    hide Off;
    if i <= j { OffsetsGrow(es, starts, i, j); } else { OffsetsGrow(es, starts, j, i); }
  }

  /** Where entry i stands in the block. */
  lemma EntryInBody(es: seq<Pair>, starts: seq<nat>, i: nat)
    requires i < |es|
    ensures var e, o := EntryBytes(SharedAt(es, starts, i), es[i]), Off(es, starts, i);
      Off(es, starts, i + 1) == o + |e| <= |Body(es, starts)| && Body(es, starts)[o..o + |e|] == e
  {
    hide Body, SharedAt, EntryBytes;
    BodyStep(es, starts, i);
    OffsetsGrow(es, starts, i + 1, |es|);
    assert es[..|es|] == es;
    var e, o, all := EntryBytes(SharedAt(es, starts, i), es[i]), Off(es, starts, i), Body(es, starts);
    assert Body(es[..i + 1], starts)[o..] == e;
    assert all[..o + |e|] == Body(es[..i + 1], starts);
    assert all[o..o + |e|] == all[..o + |e|][o..];
  }

  lemma {:induction false} LaterStartsDoNotMatter(es: seq<Pair>, starts: seq<nat>, s: nat)
    requires |es| <= s
    ensures Body(es, starts + [s]) == Body(es, starts)
  {
    hide EntryBytes;
    if es != [] {
      var n := |es| - 1;
      LaterStartsDoNotMatter(es[..n], starts, s);
      assert n in starts + [s] <==> n in starts;
    }
  }

  // ------------------------------------------------------------ the restart array

  lemma {:induction false} Fixed32sLength(ws: seq<Word>)
    ensures |Fixed32s(ws)| == 4 * |ws|
  {
    if ws != [] { Fixed32sLength(ws[..|ws| - 1]); }
  }

  /** The j-th number of the array. */
  lemma {:induction false} Fixed32At(ws: seq<Word>, j: nat)
    requires j < |ws|
    ensures |Fixed32s(ws)| == 4 * |ws| && Fixed32s(ws)[4 * j..4 * j + 4] == EncodeFixed32(ws[j])
  {
    hide EncodeFixed32;
    var n := |ws| - 1;
    Fixed32sLength(ws);
    Fixed32sLength(ws[..n]);
    var a, b := Fixed32s(ws[..n]), EncodeFixed32(ws[n]);
    if j < n {
      Fixed32At(ws[..n], j);
      assert (a + b)[4 * j..4 * j + 4] == a[4 * j..4 * j + 4];
    } else {
      assert (a + b)[4 * n..4 * n + 4] == b;
    }
  }
}
