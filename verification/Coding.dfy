/** Fixed-width and variable-width numbers as bytes. */
module Coding {
  import opened Keys

  type Byte = x: int | 0 <= x < 256
  type Word = x: int | 0 <= x < 0x1_0000_0000
  type Bytes = seq<Byte>

  const TWO_64: nat := 0x1_0000_0000_0000_0000

  function Pow2(n: nat): (r: nat)
    ensures r >= 1
  {
    if n == 0 then 1 else 2 * Pow2(n - 1)
  }

  // ------------------------------------------------------------ fixed width

  function EncodeFixed32(w: Word): (r: Bytes)
    ensures |r| == 4
  {
    [w % 256, w / 256 % 256, w / 0x1_0000 % 256, w / 0x100_0000]
  }

  function DecodeFixed32(b: Bytes): Word
    requires |b| >= 4
  {
    b[0] as int + b[1] as int * 256 + b[2] as int * 0x1_0000 + b[3] as int * 0x100_0000
  }

  lemma Fixed32RoundTrip(w: Word)
    ensures DecodeFixed32(EncodeFixed32(w)) == w
  {
    var x := w / 256;
    var y := x / 256;
    assert w / 0x1_0000 == y && w / 0x100_0000 == y / 256;
    assert w == w % 256 + 256 * x && x == x % 256 + 256 * y && y == y % 256 + 256 * (y / 256);
  }

  function Fixed64Bytes(n: nat): (r: Bytes)
    requires n < TWO_64
    ensures |r| == 8
  {
    EncodeFixed32(n % 0x1_0000_0000) + EncodeFixed32(n / 0x1_0000_0000)
  }

  function DecodeFixed64(b: Bytes): (n: nat)
    requires |b| >= 8
    ensures n < TWO_64
  {
    DecodeFixed32(b[..4]) + DecodeFixed32(b[4..8]) * 0x1_0000_0000
  }

  lemma Fixed64RoundTrip(n: nat)
    requires n < TWO_64
    ensures DecodeFixed64(Fixed64Bytes(n)) == n
  {
    hide EncodeFixed32, DecodeFixed32;
    Fixed32RoundTrip(n % 0x1_0000_0000);
    Fixed32RoundTrip(n / 0x1_0000_0000);
    var x := Fixed64Bytes(n);
    assert x[..4] == EncodeFixed32(n % 0x1_0000_0000) && x[4..8] == EncodeFixed32(n / 0x1_0000_0000);
  }

  // ------------------------------------------------------------ variable width

  /** Seven bits a byte, lowest first; all but the last byte have the high bit set. */
  function Varint(v: nat): (r: Bytes)
    ensures |r| >= 1
    ensures r[0] < 128 <==> v < 128
  {
    if v < 128 then [v] else [v % 128 + 128] + Varint(v / 128)
  }

  lemma Unfolded(v: nat)
    ensures Varint(v) == if v < 128 then [v] else [v % 128 + 128] + Varint(v / 128)
  {
  }

  /** What follows a number after its digits is determined by the bytes. */
  lemma {:induction false} VarintFirst(v: nat, w: nat, x: Bytes, y: Bytes)
    requires Varint(v) + x == Varint(w) + y
    ensures v == w && x == y
  {
    hide Varint;
    FirstDigit(v, x);
    FirstDigit(w, y);
    if v >= 128 {
      VarintFirst(v / 128, w / 128, x, y);
    }
  }

  /** The front byte tells the lowest digit, and whether others follow. */
  lemma FirstDigit(v: nat, x: Bytes)
    ensures var r := Varint(v) + x;
      r != [] && (r[0] >= 128 <==> v >= 128) && r[0] % 128 == v % 128 && r[1..] == if v >= 128 then Varint(v / 128) + x else x
  {
    Unfolded(v);
    if v >= 128 {
      DigitAndRest(Varint(v)[0], Varint(v / 128), x);
    } else {
      DigitAndRest(Varint(v)[0], [], x);
    }
  }

  lemma DigitAndRest(b: Byte, a: Bytes, x: Bytes)
    ensures [b] + a + x == [b] + (a + x) && ([b] + (a + x))[0] == b && ([b] + (a + x))[1..] == a + x && [] + x == x
  {
  }

  lemma DividedTwice(v: nat)
    ensures v / 0x80 / 0x80 == v / 0x4000 && v / 0x4000 / 0x80 == v / 0x20_0000 && v / 0x20_0000 / 0x80 == v / 0x1000_0000
  {
  }

  /** The unrolled encoder of 32-bit numbers. */
  method EncodeVarint32(v: Word) returns (r: Bytes)
    ensures r == Varint(v) && 1 <= |r| <= 5
  {
    hide Varint;
    DividedTwice(v);
    Unfolded(v);
    Unfolded(v / 0x80);
    Unfolded(v / 0x4000);
    Unfolded(v / 0x20_0000);
    Unfolded(v / 0x1000_0000);
    if v < 0x80 {
      r := [v];
    } else if v < 0x4000 {
      r := [v % 128 + 128] + [v / 0x80];
    } else if v < 0x20_0000 {
      r := [v % 128 + 128] + ([v / 0x80 % 128 + 128] + [v / 0x4000]);
    } else if v < 0x1000_0000 {
      r := [v % 128 + 128] + ([v / 0x80 % 128 + 128] + ([v / 0x4000 % 128 + 128] + [v / 0x20_0000]));
    } else {
      r := [v % 128 + 128] + ([v / 0x80 % 128 + 128] + ([v / 0x4000 % 128 + 128] +
        ([v / 0x20_0000 % 128 + 128] + [v / 0x1000_0000])));
    }
  }

  /** The bytes of v stand at p, before limit. */
  ghost predicate VarintAt(b: Bytes, p: nat, limit: nat, v: nat) {
    p + |Varint(v)| <= limit <= |b| && b[p..p + |Varint(v)|] == Varint(v)
  }

  lemma VarintStep(b: Bytes, p: nat, limit: nat, v: nat)
    requires VarintAt(b, p, limit, v)
    ensures p < limit && (if v < 128 then b[p] == v else b[p] == v % 128 + 128 && VarintAt(b, p + 1, limit, v / 128))
  {
    var r := Varint(v);
    assert b[p] == b[p..p + |r|][0];
    if v >= 128 {
      assert b[p + 1..p + |r|] == b[p..p + |r|][1..] == Varint(v / 128);
    }
  }

  /** Shifting left, as a product. */
  function Shifted(bits: nat, scale: nat): nat {
    bits * scale
  }

  lemma ScaleStep(scale: nat, w: nat)
    ensures Shifted(w, scale) == Shifted(w % 128, scale) + Shifted(w / 128, scale * 128)
  {
    var q, m := w / 128, w % 128;
    assert (128 * q + m) * scale == q * (scale * 128) + m * scale;
  }

  /** The k-th byte of a varint counts 128 to the k-th. */
  function Scale(k: nat): nat {
    if k == 0 then 1 else 128 * Scale(k - 1)
  }

  lemma FiveBytes()
    ensures Scale(5) == 0x8_0000_0000
  {
    assert Scale(1) == 0x80 && Scale(2) == 0x4000 && Scale(3) == 0x20_0000 && Scale(4) == 0x1000_0000;
  }

  /** One more byte of a number below 2^32: nothing wraps, and what is left is divided by 128. */
  lemma ByteAdded(result: nat, scale: nat, w: nat, v: Word)
    requires result + Shifted(w, scale) == v
    ensures (result + Shifted(w % 128, scale)) % 0x1_0000_0000 == result + Shifted(w % 128, scale)
    ensures result + Shifted(w % 128, scale) + Shifted(w / 128, scale * 128) == v
    ensures w < 128 ==> result + Shifted(w % 128, scale) == v
  {
    ScaleStep(scale, w);
    if w < 128 { assert w / 128 == 0; }
  }

  /** GetVarint32PtrFallback: at most five bytes; bits beyond the 32nd are lost. Reads back any
      number whose bytes stand at p. */
  method GetVarint32(b: Bytes, p: nat, limit: nat, ghost v: Word) returns (r: Option<Word>, q: nat)
    requires p <= limit <= |b|
    ensures p <= q <= limit && (r.Some? ==> p < q)
    ensures VarintAt(b, p, limit, v) ==> r == Some(v) && q == p + |Varint(v)|
  {
    hide Varint, Scale, VarintAt, Shifted;
    ghost var near := VarintAt(b, p, limit, v);
    ghost var w: nat := v;
    var result: Word := 0;
    var scale, k := 1, 0;
    q := p;
    FirstScale(v);
    while k < 5 && q < limit
      invariant k <= 5 && p <= q <= limit && scale == Scale(k)
      invariant near ==> VarintAt(b, q, limit, w) && result + Shifted(w, scale) == v && (k > 0 ==> w >= 1)
      invariant near ==> q + |Varint(w)| == p + |Varint(v)|
    {
      if near {
        VarintStep(b, q, limit, w);
        ByteAdded(result, scale, w, v);
        VarintTail(w);
      }
      NextScale(k);
      var byte := b[q];
      var bits := byte % 128;
      assert near ==> bits == w % 128;
      q := q + 1;
      result := (result + Shifted(bits, scale)) % 0x1_0000_0000;
      if byte < 128 {
        return Some(result), q;
      }
      scale := scale * 128;
      w := w / 128;
      k := k + 1;
    }
    TooManyBytes(result, scale, k, w, v);
    HasByte(b, q, limit, w);
    r := None;
  }

  lemma FirstScale(v: nat)
    ensures Scale(0) == 1 && Shifted(v, 1) == v
  {
  }

  lemma NextScale(k: nat)
    ensures Scale(k + 1) == Scale(k) * 128
  {
  }

  lemma VarintTail(w: nat)
    ensures |Varint(w)| == if w < 128 then 1 else 1 + |Varint(w / 128)|
  {
  }

  /** After five bytes a number below 2^32 has nothing left. */
  lemma TooManyBytes(result: nat, scale: nat, k: nat, w: nat, v: Word)
    ensures k == 5 && scale == Scale(k) && w >= 1 ==> result + Shifted(w, scale) != v
  {
    FiveBytes();
    if k == 5 && scale == Scale(k) && w >= 1 { assert Shifted(w, scale) >= 0x8_0000_0000; }
  }

  lemma HasByte(b: Bytes, q: nat, limit: nat, w: nat)
    ensures VarintAt(b, q, limit, w) ==> q < limit
  {
  }

  // ------------------------------------------------------------ 64 bits, and strings with their length

  /** EncodeVarint64. */
  method EncodeVarint64(v: nat) returns (r: Bytes)
    ensures r == Varint(v)
  {
    hide Varint;
    r := [];
    var n := v;
    while n >= 128
      invariant r + Varint(n) == Varint(v)
      decreases n
    {
      Unfolded(n);
      assert r + ([n % 128 + 128] + Varint(n / 128)) == r + [n % 128 + 128] + Varint(n / 128);
      r := r + [n % 128 + 128];
      n := n / 128;
    }
    Unfolded(n);
    r := r + [n];
  }

  lemma LongByteAdded(result: nat, scale: nat, w: nat, v: nat)
    requires result + Shifted(w, scale) == v < TWO_64
    ensures (result + Shifted(w % 128, scale)) % TWO_64 == result + Shifted(w % 128, scale)
    ensures result + Shifted(w % 128, scale) + Shifted(w / 128, scale * 128) == v
    ensures w < 128 ==> result + Shifted(w % 128, scale) == v
  {
    ScaleStep(scale, w);
    if w < 128 { assert w / 128 == 0; }
  }

  /** After ten bytes a number below 2^64 has nothing left. */
  lemma TenBytes(result: nat, scale: nat, k: nat, w: nat, v: nat)
    ensures v < TWO_64 && k == 10 && scale == Scale(k) && w >= 1 ==> result + Shifted(w, scale) != v
  {
    FiveBytes();
    assert Scale(6) == 128 * Scale(5) && Scale(7) == 128 * Scale(6) && Scale(8) == 128 * Scale(7);
    assert Scale(9) == 128 * Scale(8) && Scale(10) == 128 * Scale(9);
    if v < TWO_64 && k == 10 && scale == Scale(k) && w >= 1 { assert Shifted(w, scale) >= Scale(10); }
  }

  /** GetVarint64Ptr: at most ten bytes; bits beyond the 64th are lost. Reads back any number whose
      bytes stand at p. */
  method GetVarint64(b: Bytes, p: nat, limit: nat, ghost v: nat) returns (r: Option<nat>, q: nat)
    requires p <= limit <= |b|
    ensures p <= q <= limit && (r.Some? ==> p < q && r.value < TWO_64)
    ensures v < TWO_64 && VarintAt(b, p, limit, v) ==> r == Some(v) && q == p + |Varint(v)|
  {
    hide Varint, Scale, VarintAt, Shifted;
    ghost var near := v < TWO_64 && VarintAt(b, p, limit, v);
    ghost var w: nat := v;
    var result: nat := 0;
    var scale, k := 1, 0;
    q := p;
    FirstScale(v);
    while k < 10 && q < limit
      invariant k <= 10 && p <= q <= limit && scale == Scale(k) && result < TWO_64
      invariant near ==> VarintAt(b, q, limit, w) && result + Shifted(w, scale) == v && (k > 0 ==> w >= 1)
      invariant near ==> q + |Varint(w)| == p + |Varint(v)|
    {
      if near {
        VarintStep(b, q, limit, w);
        LongByteAdded(result, scale, w, v);
        VarintTail(w);
      }
      NextScale(k);
      var byte := b[q];
      var bits := byte % 128;
      assert near ==> bits == w % 128;
      q := q + 1;
      result := (result + Shifted(bits, scale)) % TWO_64;
      if byte < 128 {
        return Some(result), q;
      }
      scale := scale * 128;
      w := w / 128;
      k := k + 1;
    }
    TenBytes(result, scale, k, w, v);
    HasByte(b, q, limit, w);
    r := None;
  }

  /** x stands at p, before limit. */
  ghost predicate StandsAt(b: Bytes, p: nat, limit: nat, x: Bytes) {
    p + |x| <= limit <= |b| && b[p..p + |x|] == x
  }

  lemma StandsInTurn(b: Bytes, p: nat, limit: nat, x: Bytes, y: Bytes)
    ensures StandsAt(b, p, limit, x + y) <==> StandsAt(b, p, limit, x) && StandsAt(b, p + |x|, limit, y)
  {
    if StandsAt(b, p, limit, x + y) {
      var r := b[p..p + |x + y|];
      assert r[..|x|] == x && r[|x|..] == y;
      assert b[p..p + |x|] == r[..|x|];
      assert b[p + |x|..p + |x| + |y|] == r[|x|..];
    }
    if StandsAt(b, p, limit, x) && StandsAt(b, p + |x|, limit, y) {
      assert b[p..p + |x + y|] == b[p..p + |x|] + b[p + |x|..p + |x| + |y|];
    }
  }

  /** A string after its length. */
  function Prefixed(x: Bytes): Bytes {
    Varint(|x|) + x
  }

  /** GetLengthPrefixedSlice. */
  method GetLengthPrefixed(b: Bytes, p: nat, limit: nat, ghost x: Bytes) returns (r: Option<Bytes>, q: nat)
    requires p <= limit <= |b|
    ensures p <= q <= limit && (r.Some? ==> p < q)
    ensures |x| < 0x1_0000_0000 && StandsAt(b, p, limit, Prefixed(x)) ==> r == Some(x) && q == p + |Prefixed(x)|
  {
    hide Varint;
    StandsInTurn(b, p, limit, Varint(|x|), x);
    var length;
    length, q := GetVarint32(b, p, limit, if |x| < 0x1_0000_0000 then |x| else 0);
    r := None;
    if length.None? || limit - q < length.value {
      return;
    }
    r, q := Some(b[q..q + length.value]), q + length.value;
  }
}
