/** Input streams of the decoder: bytes, varints, tags, and substreams of limited length. */
module PbStreams {
  import opened Coding
  import opened PbFormat

  class IStream {
    const data: Bytes
    var pos: nat
    var left: nat

    ghost predicate Valid()
      reads this
    {
      pos + left <= |data|
    }

    /** What is still to be read. */
    ghost function Rest(): Bytes
      requires Valid()
      reads this
    {
      data[pos..pos + left]
    }

    constructor (data: Bytes, pos: nat, left: nat)
      requires pos + left <= |data|
      ensures Valid() && this.data == data && this.pos == pos && this.left == left
    {
      this.data := data;
      this.pos := pos;
      this.left := left;
    }

    /** pb_read. */
    method Read(n: nat) returns (ok: bool, b: Bytes)
      requires Valid()
      modifies this
      ensures Valid() && ok == (n <= old(left)) && pos + left == old(pos + left)
      ensures ok ==> |b| == n && b == old(Rest())[..n] && Rest() == old(Rest())[n..] && pos == old(pos) + n
      ensures !ok ==> pos == old(pos) && left == old(left)
    {
      if left < n {
        return false, [];
      }
      ok, b := true, data[pos..pos + n];
      pos, left := pos + n, left - n;
    }

    method ReadByte() returns (ok: bool, b: Byte)
      requires Valid()
      modifies this
      ensures Valid() && ok == (old(left) > 0)
      ensures ok ==> b == old(Rest())[0] && Rest() == old(Rest())[1..] && left == old(left) - 1
      ensures ok ==> pos == old(pos) + 1 && b == data[old(pos)]
      ensures !ok ==> pos == old(pos) && left == old(left)
    {
      if left == 0 {
        return false, 0;
      }
      ok, b := true, data[pos];
      pos, left := pos + 1, left - 1;
    }
  }

  /** r begins with x. */
  ghost predicate Starts(r: Bytes, x: Bytes) {
    x <= r
  }

  /** What follows the first |x| bytes of r. */
  function Past(r: Bytes, x: Bytes): Bytes {
    if |x| <= |r| then r[|x|..] else []
  }

  lemma StartsWithVarint(r: Bytes, v: nat)
    requires Starts(r, Varint(v))
    ensures |r| > 0 && (if v < 128 then r[0] == v && |Varint(v)| == 1 else r[0] == v % 128 + 128)
    ensures v >= 128 ==> Starts(r[1..], Varint(v / 128)) && |Varint(v)| == 1 + |Varint(v / 128)|
    ensures v >= 128 ==> Past(r, Varint(v)) == Past(r[1..], Varint(v / 128))
    ensures v < 128 ==> Past(r, Varint(v)) == r[1..]
  {
    hide Varint;
    Unfolded(v);
    if v >= 128 {
      var t := Varint(v / 128);
      assert r[..|Varint(v)|] == [v % 128 + 128] + t;
      assert r[1..][..|t|] == r[..|Varint(v)|][1..] == t;
    }
  }

  /** pb_decode_varint: at most ten bytes, the last one shifted by 63. Reads back any number of 64
      bits that stands at the front. */
  method DecodeVarint(s: IStream, ghost v: nat) returns (ok: bool, result: nat)
    requires s.Valid()
    modifies s
    ensures s.Valid() && result < TWO_64 && s.pos + s.left == old(s.pos + s.left) && s.pos >= old(s.pos) && (ok ==> s.pos > old(s.pos))
    ensures v < TWO_64 && old(Starts(s.Rest(), Varint(v))) ==> ok && result == v && s.Rest() == Past(old(s.Rest()), Varint(v))
  {
    hide Varint, Shifted, Scale, Starts, Past;
    ghost var near := v < TWO_64 && Starts(s.Rest(), Varint(v));
    ghost var r, w: nat := s.Rest(), v;
    var scale, k := 1, 0;
    result := 0;
    FirstScale(v);
    while true
      invariant s.Valid() && result < TWO_64 && k <= 10 && scale == Scale(k) && s.pos + s.left == old(s.pos + s.left) && s.pos >= old(s.pos)
      invariant near ==> Starts(s.Rest(), Varint(w)) && result + Shifted(w, scale) == v && (k > 0 ==> w >= 1)
      invariant near ==> Past(s.Rest(), Varint(w)) == Past(r, Varint(v))
      decreases s.left
    {
      TenBytes(result, scale, k, w, v);
      if k >= 10 {
        return false, 0;
      }
      if near {
        StartsWithVarint(s.Rest(), w);
        LongByteAdded(result, scale, w, v);
      }
      NextScale(k);
      var more, byte := s.ReadByte();
      if !more {
        return false, 0;
      }
      var bits: nat := byte % 128;
      assert near ==> bits == w % 128;
      result := (result + Shifted(bits, scale)) % TWO_64;
      if byte < 128 {
        return true, result;
      }
      scale := scale * 128;
      w := w / 128;
      k := k + 1;
    }
  }

  // ------------------------------------------------------------ 32-bit varints

  function BitOr(a: nat, b: nat): nat {
    if a == 0 then b
    else if b == 0 then a
    else 2 * BitOr(a / 2, b / 2) + if a % 2 == 1 || b % 2 == 1 then 1 else 0
  }

  /** Without common bits, or is addition. */
  lemma {:induction false} OrAdds(a: nat, b: nat, n: nat)
    requires a < Pow2(n)
    ensures BitOr(a, Shifted(b, Pow2(n))) == a + Shifted(b, Pow2(n))
  {
    if n > 0 {
      hide BitOr;
      OrAdds(a / 2, b, n - 1);
      ShiftedTwice(b, n);
      OrOfEven(a, Shifted(b, Pow2(n - 1)));
    }
  }

  lemma ShiftedTwice(b: nat, n: nat)
    requires n > 0
    ensures Shifted(b, Pow2(n)) == 2 * Shifted(b, Pow2(n - 1))
  {
    var p := Pow2(n - 1);
    assert b * (2 * p) == 2 * (b * p);
  }

  lemma OrUnfolds(a: nat, b: nat)
    ensures BitOr(a, 0) == a && BitOr(0, b) == b
    ensures a != 0 && b != 0 ==> BitOr(a, b) == 2 * BitOr(a / 2, b / 2) + if a % 2 == 1 || b % 2 == 1 then 1 else 0
  {
  }

  lemma OrOfEven(a: nat, c: nat)
    ensures BitOr(a, 2 * c) == 2 * BitOr(a / 2, c) + a % 2
  {
    hide BitOr;
    OrUnfolds(a, 2 * c);
    OrUnfolds(a / 2, c);
    assert 2 * c / 2 == c && 2 * c % 2 == 0;
  }

  lemma {:induction false} OrFits(a: nat, b: nat, n: nat)
    requires a < Pow2(n) && b < Pow2(n)
    ensures BitOr(a, b) < Pow2(n)
  {
    if n > 0 && a != 0 && b != 0 { OrFits(a / 2, b / 2, n - 1); }
  }

  lemma {:induction false} Powers(n: nat)
    ensures Pow2(n + 7) == 128 * Pow2(n)
    ensures Pow2(7) == 0x80 && Pow2(14) == 0x4000 && Pow2(21) == 0x20_0000 && Pow2(28) == 0x1000_0000 && Pow2(32) == 0x1_0000_0000
  {
    assert Pow2(n + 1) == 2 * Pow2(n) && Pow2(n + 2) == 4 * Pow2(n) && Pow2(n + 3) == 8 * Pow2(n);
    assert Pow2(n + 4) == 16 * Pow2(n) && Pow2(n + 5) == 32 * Pow2(n) && Pow2(n + 6) == 64 * Pow2(n);
    assert Pow2(3) == 8 && Pow2(6) == 64 && Pow2(9) == 512 && Pow2(12) == 0x1000 && Pow2(15) == 0x8000;
    assert Pow2(18) == 0x4_0000 && Pow2(21) == 0x20_0000 && Pow2(24) == 0x100_0000 && Pow2(27) == 0x800_0000;
    assert Pow2(30) == 0x4000_0000;
  }

  /** Only the last byte has its high bit clear. */
  ghost predicate Ended(c: Bytes) {
    |c| > 0 && c[|c| - 1] < 128 && forall i :: 0 <= i < |c| - 1 ==> c[i] >= 128
  }

  /** The number that groups of seven bits stand for, lowest first. */
  function Groups(c: Bytes): nat {
    if c == [] then 0 else c[0] % 128 + 128 * Groups(c[1..])
  }

  lemma {:induction false} GroupsStep(c: Bytes, x: Byte)
    ensures Groups(c + [x]) == Groups(c) + Shifted(x % 128, Pow2(7 * |c|))
    ensures Groups(c) < Pow2(7 * |c|)
  {
    hide Pow2, Shifted;
    if c == [] {
      assert (c + [x])[1..] == [];
      OneGroupOnly(x);
    } else {
      hide Groups;
      var n := |c| - 1;
      assert (c + [x])[1..] == c[1..] + [x];
      GroupsStep(c[1..], x);
      GroupsUnfold(c);
      GroupsUnfold(c + [x]);
      ScaledGroup(x % 128, n);
    }
  }

  lemma OneGroupOnly(x: Byte)
    ensures Shifted(x % 128, Pow2(0)) == x % 128 && Pow2(0) == 1
  {
  }

  lemma GroupsUnfold(c: Bytes)
    requires c != []
    ensures Groups(c) == c[0] % 128 + 128 * Groups(c[1..])
  {
  }

  lemma ScaledGroup(g: nat, n: nat)
    ensures 128 * Shifted(g, Pow2(7 * n)) == Shifted(g, Pow2(7 * (n + 1))) && Pow2(7 * (n + 1)) == 128 * Pow2(7 * n)
  {
    hide Pow2;
    Powers(7 * n);
    assert 128 * (g * Pow2(7 * n)) == g * (128 * Pow2(7 * n));
  }

  lemma {:induction false} VarintEnds(v: nat)
    ensures Ended(Varint(v)) && Groups(Varint(v)) == v
  {
    hide Varint;
    Unfolded(v);
    if v < 128 {
      OneByte(v);
    } else {
      VarintEnds(v / 128);
      GoesBefore(v % 128 + 128, Varint(v / 128));
    }
  }

  lemma OneByte(x: Byte)
    requires x < 128
    ensures Ended([x]) && Groups([x]) == x
  {
    assert [x][1..] == [];
  }

  lemma GoesBefore(x: Byte, c: Bytes)
    requires x >= 128 && Ended(c)
    ensures Ended([x] + c) && Groups([x] + c) == x % 128 + 128 * Groups(c)
  {
    assert ([x] + c)[1..] == c;
  }

  /** A number of 32 bits takes five bytes at most, and of the fifth only four bits. */
  lemma ShortVarint(v: nat)
    requires v < 0x1_0000_0000
    ensures |Varint(v)| <= 5 && (|Varint(v)| == 5 ==> Varint(v)[4] < 16)
  {
    hide Varint;
    DividedTwice(v);
    Unfolded(v);
    Unfolded(v / 0x80);
    Unfolded(v / 0x4000);
    Unfolded(v / 0x20_0000);
    Unfolded(v / 0x1000_0000);
  }

  /** Two varints at the front of the same bytes are the same. */
  lemma OneEnd(r: Bytes, c: Bytes, d: Bytes)
    requires c <= r && d <= r && Ended(c) && Ended(d)
    ensures c == d
  {
    assert c == r[..|c|] && d == r[..|d|];
    EndsFirst(c, d);
    EndsFirst(d, c);
  }

  lemma EndsFirst(c: Bytes, d: Bytes)
    requires Ended(c) && Ended(d)
    ensures |c| < |d| ==> d[..|c|] != c
  {
    assert |c| < |d| ==> d[..|c|][|c| - 1] >= 128;
  }

  /** The bytes from p to q, as a varint of at most five bytes, are the number v. */
  ghost predicate VarintIs(data: Bytes, p: nat, q: nat, v: nat) {
    p < q <= |data| && Ended(data[p..q]) && (q - p <= 5 ==> v == Groups(data[p..q]))
  }

  /** The bytes from p to q have their high bits set. */
  ghost predicate GoesOn(data: Bytes, p: nat, q: nat) {
    p <= q <= |data| && forall i :: p <= i < q ==> data[i] >= 128
  }

  lemma EndsThere(data: Bytes, p: nat, q: nat)
    ensures GoesOn(data, p, q) && q < |data| && data[q] < 128 ==> Ended(data[p..q + 1])
  {
  }

  /** The bytes of v, of 32 bits, come first of those from p on. */
  ghost predicate ComesFirst(data: Bytes, p: nat, left: nat, v: nat) {
    p + left <= |data| && v < 0x1_0000_0000 && Starts(data[p..p + left], Varint(v))
  }

  /** While a number's bytes go on, its last one is still to come. */
  lemma StillComing(data: Bytes, p: nat, left: nat, q: nat, v: nat)
    ensures ComesFirst(data, p, left, v) && GoesOn(data, p, q) ==> q < p + left && q - p < 5 && (q - p == 4 ==> data[q] < 16)
  {
    hide Varint;
    var x := Varint(v);
    VarintEnds(v);
    if ComesFirst(data, p, left, v) && GoesOn(data, p, q) {
      ShortVarint(v);
      assert x == data[p..p + left][..|x|];
      assert forall i :: 0 <= i < |x| ==> x[i] == data[p + i];
      assert data[p + |x| - 1] < 128;
    }
  }

  /** Reading to the end of the varint at the front reads that number. */
  lemma CameToEnd(data: Bytes, p: nat, left: nat, q: nat, v: nat, r: nat)
    requires p < q <= p + left <= |data|
    ensures ComesFirst(data, p, left, v) && VarintIs(data, p, q, r) ==> r == v && data[q..p + left] == Past(data[p..p + left], Varint(v))
  {
    hide Varint, Groups;
    var x := Varint(v);
    VarintEnds(v);
    if ComesFirst(data, p, left, v) && VarintIs(data, p, q, r) {
      ShortVarint(v);
      assert data[p..q] <= data[p..p + left];
      OneEnd(data[p..p + left], data[p..q], x);
    }
  }

  /** One more group of a varint of at most five bytes. */
  lemma GroupAdded(data: Bytes, p: nat, q: nat, result: nat)
    ensures p <= q < |data| && q - p <= 4 && result == Groups(data[p..q]) ==>
      var g := data[q] % 128;
      var sum := result + Shifted(g, Pow2(7 * (q - p)));
      sum == Groups(data[p..q + 1]) && BitOr(result, Shifted(g, Pow2(7 * (q - p)))) == sum &&
      (q - p < 4 || g < 16 ==> sum < 0x1_0000_0000)
  {
    if p <= q < |data| && q - p <= 4 && result == Groups(data[p..q]) {
      var c, g := data[p..q], data[q] % 128;
      GroupsStep(c, data[q]);
      assert data[p..q + 1] == c + [data[q]];
      OrAdds(result, g, 7 * (q - p));
      Powers(7 * (q - p));
      SumFits(result, g, q - p);
    }
  }

  lemma SumFits(result: nat, g: nat, k: nat)
    requires result < Pow2(7 * k) && g < 128 && k <= 4
    ensures k < 4 || g < 16 ==> result + Shifted(g, Pow2(7 * k)) < 0x1_0000_0000
  {
    Powers(0);
    if g < 16 && k == 4 { assert g * 0x1000_0000 <= 15 * 0x1000_0000; }
    if k < 4 { assert Pow2(7 * k) <= 0x20_0000; assert g * Pow2(7 * k) <= 127 * Pow2(7 * k); }
  }

  /** result is the number of the bytes from p to q, of which there are at most five, if it fits. */
  ghost predicate SoFar(data: Bytes, p: nat, q: nat, result: Word) {
    p < q <= |data| && (q - p <= 4 || (q - p == 5 && data[q - 1] % 128 < 16) ==> result == Groups(data[p..q]))
  }

  /** One turn of the loop of pb_decode_varint32_eof: bits beyond the 32nd are only checked. */
  method TakeGroup(result: Word, bitpos: nat, byte: Byte, ghost data: Bytes, ghost p: nat, ghost q: nat)
    returns (fits: bool, r: Word)
    requires SoFar(data, p, q, result) && q < |data| && byte == data[q]
    requires q - p <= 4 ==> bitpos == 7 * (q - p)
    ensures q - p <= 4 ==> fits
    ensures fits ==> SoFar(data, p, q + 1, r)
  {
    hide Pow2, Groups, Shifted, BitOr;
    GroupAdded(data, p, q, result);
    if bitpos >= 32 {
      var signExtension := if bitpos < 63 then 0xFF else 0x01;
      if byte % 128 != 0 && (result / 0x8000_0000 == 0 || byte != signExtension) {
        return false, 0;
      }
      r := result;
    } else {
      var shifted := Shifted(byte % 128, Pow2(bitpos)) % 0x1_0000_0000;
      TwoWords(result, shifted);
      r := BitOr(result, shifted);
    }
    fits := true;
  }

  /** The multibyte case of pb_decode_varint32_eof, after a first byte at p. The eight bits of the
      position may wrap around. */
  method FurtherGroups(s: IStream, first: Byte, ghost p: nat, ghost v: nat) returns (ok: bool, result: Word)
    requires s.Valid() && s.pos == p + 1 && first == s.data[p] >= 128
    modifies s
    ensures s.Valid() && s.pos + s.left == old(s.pos + s.left) && s.pos >= old(s.pos)
    ensures ok ==> VarintIs(s.data, p, s.pos, result)
    ensures old(ComesFirst(s.data, p, s.left + 1, v)) ==> ok
  {
    hide Varint, Pow2, Groups, Shifted, BitOr, Starts, Past, Ended, IStream.Rest, SoFar, VarintIs, GoesOn, ComesFirst;
    ghost var all := s.left + 1;
    FirstGroup(s.data, p);
    EndsThere(s.data, p, p);
    var byte, more := first, true;
    result := byte % 128;
    var bitpos := 7;
    while byte >= 128
      invariant s.Valid() && s.pos + s.left == p + all && s.pos > p && GoesOn(s.data, p, s.pos - 1) && byte == s.data[s.pos - 1]
      invariant 0 <= bitpos < 256 && (s.pos - p <= 5 ==> bitpos == 7 * (s.pos - p))
      invariant SoFar(s.data, p, s.pos, result)
      invariant byte < 128 ==> Ended(s.data[p..s.pos])
      decreases s.left
    {
      OneFurther(s.data, p, s.pos, result);
      StillComing(s.data, p, all, s.pos, v);
      EndsThere(s.data, p, s.pos);
      more, byte := s.ReadByte();
      if !more {
        return false, 0;
      }
      var fits;
      fits, result := TakeGroup(result, bitpos, byte, s.data, p, s.pos - 1);
      if !fits {
        return false, 0;
      }
      bitpos := (bitpos + 7) % 256;
    }
    if bitpos == 35 && byte / 16 % 8 != 0 {
      StillComing(s.data, p, all, s.pos - 1, v);
      return false, 0;
    }
    ok := true;
    Whole(s.data, p, s.pos, result);
  }

  /** pb_decode_varint32_eof. */
  method DecodeVarint32Eof(s: IStream, ghost v: nat) returns (ok: bool, result: Word, eof: bool)
    requires s.Valid()
    modifies s
    ensures s.Valid() && s.pos + s.left == old(s.pos + s.left) && s.pos >= old(s.pos)
    ensures eof == (old(s.left) == 0) && (eof ==> !ok)
    ensures ok ==> s.pos > old(s.pos) && VarintIs(s.data, old(s.pos), s.pos, result)
    ensures old(ComesFirst(s.data, s.pos, s.left, v)) ==> ok && result == v && s.Rest() == Past(old(s.Rest()), Varint(v))
  {
    hide Varint, Pow2, Groups, Shifted, BitOr, Starts, Past, Ended, IStream.Rest, SoFar, VarintIs, GoesOn, ComesFirst;
    RestIs(s);
    ghost var p, all := s.pos, s.left;
    FirstGroup(s.data, p);
    StillComing(s.data, p, all, p, v);
    var more, byte := s.ReadByte();
    if !more {
      return false, 0, true;
    }
    eof := false;
    if byte < 128 {
      EndsThere(s.data, p, p);
      Whole(s.data, p, s.pos, byte % 128);
      ok, result := true, byte;
    } else {
      ok, result := FurtherGroups(s, byte, p, v);
      if !ok {
        return;
      }
    }
    RestIs(s);
    CameToEnd(s.data, p, all, s.pos, v, result);
  }

  lemma RestIs(s: IStream)
    requires s.Valid()
    ensures s.Rest() == s.data[s.pos..s.pos + s.left]
  {
  }

  lemma FirstGroup(data: Bytes, p: nat)
    ensures p <= |data| ==> GoesOn(data, p, p)
    ensures p < |data| ==> SoFar(data, p, p + 1, data[p] % 128)
  {
    OneGroup(data, p);
  }

  lemma OneFurther(data: Bytes, p: nat, q: nat, r: Word)
    ensures SoFar(data, p, q, r) && GoesOn(data, p, q - 1) && data[q - 1] >= 128 ==> GoesOn(data, p, q)
  {
  }

  lemma Whole(data: Bytes, p: nat, q: nat, r: Word)
    requires SoFar(data, p, q, r) && Ended(data[p..q]) && (q - p == 5 ==> data[q - 1] / 16 % 8 == 0)
    ensures VarintIs(data, p, q, r)
  {
    assert data[p..q][q - p - 1] == data[q - 1];
  }

  lemma TwoWords(a: nat, b: nat)
    requires a < 0x1_0000_0000 && b < 0x1_0000_0000
    ensures BitOr(a, b) < 0x1_0000_0000
  {
    Powers(0);
    OrFits(a, b, 32);
  }

  lemma OneGroup(data: Bytes, p: nat)
    ensures p < |data| ==> Groups(data[p..p + 1]) == data[p] % 128
  {
    if p < |data| { assert data[p..p + 1][1..] == []; }
  }

  // ------------------------------------------------------------ tags and skipping

  /** pb_decode_tag; a zero ends the message like the end of the stream. */
  method DecodeTag(s: IStream, ghost field: nat, ghost wire: nat) returns (ok: bool, wireType: nat, tag: nat, eof: bool)
    requires s.Valid()
    modifies s
    ensures s.Valid() && s.pos + s.left == old(s.pos + s.left) && s.pos >= old(s.pos)
    ensures ok ==> s.pos > old(s.pos) && VarintIs(s.data, old(s.pos), s.pos, tag * 8 + wireType) && wireType < 8 && tag * 8 + wireType > 0
    ensures 1 <= field < MAX_TAG && wire < 8 && old(Starts(s.Rest(), TagBytes(field, wire))) ==>
      ok && tag == field && wireType == wire && s.Rest() == Past(old(s.Rest()), TagBytes(field, wire))
  {
    hide Varint, VarintIs, Starts, Past;
    var temp;
    ok, temp, eof := DecodeVarint32Eof(s, field * 8 + wire);
    if !ok {
      return false, 0, 0, eof;
    }
    if temp == 0 {
      return false, 0, 0, true;
    }
    tag, wireType := temp / 8, temp % 8;
  }

  /** pb_skip_varint. c is a varint of any length. */
  method SkipVarint(s: IStream, ghost c: Bytes) returns (ok: bool)
    requires s.Valid()
    modifies s
    ensures s.Valid() && s.pos + s.left == old(s.pos + s.left) && s.pos >= old(s.pos)
    ensures ok ==> Ended(s.data[old(s.pos)..s.pos])
    ensures !ok ==> GoesOn(s.data, old(s.pos), s.pos) && s.left == 0
    ensures Ended(c) && old(Starts(s.Rest(), c)) ==> ok && s.Rest() == Past(old(s.Rest()), c)
  {
    hide Starts, Past, Ended, GoesOn, IStream.Rest;
    RestIs(s);
    EndsThere(s.data, s.pos, s.pos);
    ghost var p, all := s.pos, s.left;
    NothingYet(s.data, p);
    while true
      invariant s.Valid() && s.pos + s.left == old(s.pos + s.left) && GoesOn(s.data, old(s.pos), s.pos)
      decreases s.left
    {
      EndsThere(s.data, old(s.pos), s.pos);
      NotEnded(s.data, p, all, s.pos, c);
      var more, byte := s.ReadByte();
      if !more {
        return false;
      }
      if byte < 128 {
        RestIs(s);
        EndedThere(s.data, p, all, s.pos, c);
        return true;
      }
      OneMoreOn(s.data, p, s.pos);
    }
  }

  lemma NothingYet(data: Bytes, p: nat)
    ensures p <= |data| ==> GoesOn(data, p, p)
  {
  }

  lemma OneMoreOn(data: Bytes, p: nat, q: nat)
    requires p < q <= |data| && GoesOn(data, p, q - 1) && data[q - 1] >= 128
    ensures GoesOn(data, p, q)
  {
  }

  /** A varint that stands at p does not end while bytes go on. */
  lemma NotEnded(data: Bytes, p: nat, left: nat, q: nat, c: Bytes)
    requires p + left <= |data| && GoesOn(data, p, q)
    ensures Ended(c) && Starts(data[p..p + left], c) ==> q < p + left
  {
    if Ended(c) && Starts(data[p..p + left], c) {
      assert c == data[p..p + left][..|c|];
      assert data[p + |c| - 1] == c[|c| - 1];
    }
  }

  lemma EndedThere(data: Bytes, p: nat, left: nat, q: nat, c: Bytes)
    requires p + left <= |data| && p <= q <= p + left && Ended(data[p..q])
    ensures Ended(c) && Starts(data[p..p + left], c) ==> data[q..p + left] == Past(data[p..p + left], c)
  {
    hide Ended;
    if Ended(c) && Starts(data[p..p + left], c) {
      assert data[p..q] <= data[p..p + left];
      OneEnd(data[p..p + left], data[p..q], c);
    }
  }

  /** pb_skip_string. */
  method SkipString(s: IStream, ghost b: Bytes) returns (ok: bool)
    requires s.Valid()
    modifies s
    ensures s.Valid() && s.pos + s.left == old(s.pos + s.left) && s.pos >= old(s.pos)
    ensures |b| < 0x1_0000_0000 && old(Starts(s.Rest(), Prefixed(b))) ==> ok && s.Rest() == Past(old(s.Rest()), Prefixed(b))
  {
    hide Varint, Starts, Past, VarintIs, IStream.Rest, Prefixed;
    RestIs(s);
    PrefixedStarts(s.Rest(), b);
    var length;
    var eof;
    ok, length, eof := DecodeVarint32Eof(s, |b|);
    if !ok {
      return;
    }
    PartOf(s.Rest(), b);
    RestIs(s);
    var skipped;
    ok, skipped := s.Read(length);
  }

  /** What may follow the tag of a field that is not known. */
  ghost predicate Payloads(wireType: nat, p: Bytes) {
    match wireType
    case 0 => Ended(p)
    case 1 => |p| == 8
    case 2 => exists b: Bytes :: |b| < 0x1_0000_0000 && p == Prefixed(b)
    case 5 => |p| == 4
    case _ => false
  }

  /** pb_skip_field: whatever payload stands there is passed over, and no byte more. */
  method SkipField(s: IStream, wireType: nat, ghost p: Bytes) returns (ok: bool)
    requires s.Valid()
    modifies s
    ensures s.Valid() && s.pos + s.left == old(s.pos + s.left) && s.pos >= old(s.pos)
    ensures ok ==> wireType in {0, 1, 2, 5}
    ensures wireType == 1 ==> ok == (old(s.left) >= 8) && (ok ==> s.pos == old(s.pos) + 8)
    ensures wireType == 5 ==> ok == (old(s.left) >= 4) && (ok ==> s.pos == old(s.pos) + 4)
    ensures Payloads(wireType, p) && old(Starts(s.Rest(), p)) ==> ok && s.Rest() == Past(old(s.Rest()), p)
  {
    hide Varint, Prefixed, Ended;
    ghost var b: Bytes := [];
    if wireType == 2 && Payloads(wireType, p) {
      b :| |b| < 0x1_0000_0000 && p == Prefixed(b);
    }
    var skipped;
    match wireType
    case 0 => ok := SkipVarint(s, p);
    case 1 => ok, skipped := s.Read(8);
    case 2 => ok := SkipString(s, b);
    case 5 => ok, skipped := s.Read(4);
    case _ => ok := false;
  }

  // ------------------------------------------------------------ substreams

  /** pb_make_string_substream: the next bytes, as many as the number before them says. */
  method MakeSubstream(s: IStream, ghost b: Bytes) returns (ok: bool, sub: IStream)
    requires s.Valid()
    modifies s
    ensures s.Valid() && s.pos >= old(s.pos) && s.pos + s.left <= old(s.pos + s.left) && fresh(sub) && sub.Valid()
    ensures ok ==> sub.data == s.data && sub.pos == s.pos > old(s.pos) && s.pos + sub.left + s.left == old(s.pos + s.left)
    ensures |b| < 0x1_0000_0000 && old(Starts(s.Rest(), Prefixed(b))) ==>
      ok && sub.Rest() == b && s.data[sub.pos + sub.left..sub.pos + sub.left + s.left] == Past(old(s.Rest()), Prefixed(b))
  {
    hide Varint, Starts, Past, VarintIs, IStream.Rest;
    RestIs(s);
    ghost var r := s.Rest();
    PrefixedStarts(r, b);
    var size, eof;
    ok, size, eof := DecodeVarint32Eof(s, |b|);
    sub := new IStream(s.data, s.pos, 0);
    if !ok {
      return;
    }
    RestIs(s);
    if s.left < size {
      PartOf(s.Rest(), b);
      return false, sub;
    }
    sub := new IStream(s.data, s.pos, size);
    s.left := s.left - size;
    PartOf(s.data[s.pos..s.pos + size + s.left], b);
    RestIs(sub);
    Longer(s.data, s.pos, size + s.left, size);
  }

  lemma PrefixedStarts(r: Bytes, b: Bytes)
    ensures Starts(r, Prefixed(b)) ==>
      Starts(r, Varint(|b|)) && Starts(Past(r, Varint(|b|)), b) && Past(Past(r, Varint(|b|)), b) == Past(r, Prefixed(b))
  {
    hide Varint;
    var l := Varint(|b|);
    if Starts(r, Prefixed(b)) {
      assert r[..|l + b|] == l + b;
      assert r[..|l|] == r[..|l + b|][..|l|] == l;
      assert r[|l|..][..|b|] == r[..|l + b|][|l|..] == b;
    }
  }

  lemma PartOf(r: Bytes, b: Bytes)
    ensures Starts(r, b) ==> |b| <= |r| && r[..|b|] == b && Past(r, b) == r[|b|..]
  {
  }

  lemma Longer(data: Bytes, p: nat, left: nat, size: nat)
    requires p + left <= |data| && size <= left
    ensures data[p..p + left][..size] == data[p..p + size] && data[p..p + left][size..] == data[p + size..p + left]
  {
  }

  /** pb_close_string_substream: whatever the substream has left is passed over. */
  method CloseSubstream(s: IStream, sub: IStream)
    requires s != sub && s.data == sub.data && sub.pos + sub.left + s.left <= |s.data|
    modifies s, sub
    ensures s.Valid() && s.pos == old(sub.pos + sub.left) && s.left == old(s.left)
  {
    if sub.left > 0 {
      var _, _ := sub.Read(sub.left);
    }
    s.pos := sub.pos;
  }
}
