/** Decoders of single values that are not messages. */
module PbScalars {
  import opened Coding
  import opened PbFormat
  import opened PbStreams

  /** A cast to a signed integer of that many bytes. */
  function CastSigned(n: int, size: nat): int
    requires Half(size) > 0
  {
    var low := n % (2 * Half(size));
    if low >= Half(size) then low - 2 * Half(size) else low
  }

  lemma CastKeeps(n: int, size: nat)
    requires Half(size) > 0
    ensures -Half(size) <= CastSigned(n, size) < Half(size)
    ensures -Half(size) <= n < Half(size) ==> CastSigned(n, size) == n
    ensures -Half(size) <= n < Half(size) ==> CastSigned(AsUnsigned(n), 8) == n && CastSigned(AsUnsigned(n), if size == 8 then 8 else 4) == n
  {
    hide CastSigned;
    HalfOf(size);
    WordCasts(n);
    match size
    case 1 => ByteCast(n);
    case 2 => ShortCast(n);
    case 4 => WordCast(n);
    case _ => LongCast(n);
  }

  lemma HalfOf(size: nat)
    requires Half(size) > 0
    ensures size in {1, 2, 4, 8} && Half(size) <= 0x8000_0000_0000_0000 && (size != 8 ==> Half(size) <= 0x8000_0000)
  {
  }

  lemma ByteCast(n: int)
    ensures -0x80 <= CastSigned(n, 1) < 0x80 && (-0x80 <= n < 0x80 ==> CastSigned(n, 1) == n)
  {
  }

  lemma ShortCast(n: int)
    ensures -0x8000 <= CastSigned(n, 2) < 0x8000 && (-0x8000 <= n < 0x8000 ==> CastSigned(n, 2) == n)
  {
  }

  lemma WordCast(n: int)
    ensures -0x8000_0000 <= CastSigned(n, 4) < 0x8000_0000 && (-0x8000_0000 <= n < 0x8000_0000 ==> CastSigned(n, 4) == n)
  {
  }

  lemma LongCast(n: int)
    ensures -0x8000_0000_0000_0000 <= CastSigned(n, 8) < 0x8000_0000_0000_0000
    ensures -0x8000_0000_0000_0000 <= n < 0x8000_0000_0000_0000 ==> CastSigned(n, 8) == n
  {
  }

  /** The 64-bit pattern of a number, cast back to 64 or 32 bits. */
  lemma WordCasts(n: int)
    ensures -0x8000_0000_0000_0000 <= n < 0x8000_0000_0000_0000 ==> CastSigned(AsUnsigned(n), 8) == n
    ensures -0x8000_0000 <= n < 0x8000_0000 ==> CastSigned(AsUnsigned(n), 4) == n
  {
  }

  lemma UnsignedFits(n: int, size: nat)
    ensures -Half(size) <= n < Half(size) ==> 0 <= AsUnsigned(n) < TWO_64
  {
  }

  /** pb_dec_varint: narrow fields take the value of the low 32 bits. */
  method DecSigned(s: IStream, size: nat, ghost n: int) returns (ok: bool, r: int)
    requires s.Valid()
    modifies s
    ensures s.Valid() && s.pos + s.left == old(s.pos + s.left) && s.pos >= old(s.pos) && (ok ==> s.pos > old(s.pos))
    ensures ok ==> ScalarOk(Signed(size), r)
    ensures ScalarOk(Signed(size), n) && old(Starts(s.Rest(), ScalarBytes(Signed(size), n))) ==>
      ok && r == n && s.Rest() == Past(old(s.Rest()), ScalarBytes(Signed(size), n))
  {
    hide Varint, Starts, Past, IStream.Rest, CastSigned, AsUnsigned;
    UnsignedFits(n, size);
    var value;
    ok, value := DecodeVarint(s, NatOf(AsUnsigned(n)));
    r := 0;
    if !ok {
      return;
    }
    if !(size == 1 || size == 2 || size == 4 || size == 8) {
      return false, 0;
    }
    CastKeeps(n, size);
    var svalue: int := CastSigned(value, if size == 8 then 8 else 4);
    CastKeeps(svalue, size);
    var clamped := CastSigned(svalue, size);
    if clamped != svalue {
      return false, 0;
    }
    r := clamped;
  }

  /** pb_dec_uvarint. */
  method DecUnsigned(s: IStream, size: nat, ghost n: int) returns (ok: bool, r: int)
    requires s.Valid()
    modifies s
    ensures s.Valid() && s.pos + s.left == old(s.pos + s.left) && s.pos >= old(s.pos) && (ok ==> s.pos > old(s.pos))
    ensures ok ==> ScalarOk(Unsigned(size), r)
    ensures ScalarOk(Unsigned(size), n) && old(Starts(s.Rest(), ScalarBytes(Unsigned(size), n))) ==>
      ok && r == n && s.Rest() == Past(old(s.Rest()), ScalarBytes(Unsigned(size), n))
  {
    hide Varint, Starts, Past, IStream.Rest;
    var value;
    ok, value := DecodeVarint(s, NatOf(n));
    r := 0;
    if !ok {
      return;
    }
    if !(size == 1 || size == 2 || size == 4 || size == 8) {
      return false, 0;
    }
    var clamped := if size == 8 then value else if size == 4 then value % 0x1_0000_0000 else if size == 2 then value % 0x1_0000 else value % 0x100;
    if clamped != value {
      return false, 0;
    }
    r := clamped;
  }

  /** What pb_decode_svarint makes of a number: odd ones stand for negative ones. */
  function UnZigZag(v: nat): int {
    if v % 2 == 1 then -1 - v / 2 else v / 2
  }

  lemma ZigZagBack(n: int)
    ensures ZigZag(n) >= 0 && UnZigZag(ZigZag(n)) == n
  {
  }

  lemma ZigZagFits(n: int, size: nat)
    ensures -Half(size) <= n < Half(size) ==> ZigZag(n) < TWO_64
  {
  }

  /** pb_decode_svarint and pb_dec_svarint. */
  method DecZigZag(s: IStream, size: nat, ghost n: int) returns (ok: bool, r: int)
    requires s.Valid()
    modifies s
    ensures s.Valid() && s.pos + s.left == old(s.pos + s.left) && s.pos >= old(s.pos) && (ok ==> s.pos > old(s.pos))
    ensures ok ==> ScalarOk(ZigZagged(size), r)
    ensures ScalarOk(ZigZagged(size), n) && old(Starts(s.Rest(), ScalarBytes(ZigZagged(size), n))) ==>
      ok && r == n && s.Rest() == Past(old(s.Rest()), ScalarBytes(ZigZagged(size), n))
  {
    hide Varint, Starts, Past, IStream.Rest, ZigZag, UnZigZag, CastSigned;
    ZigZagBack(n);
    ZigZagFits(n, size);
    var value;
    ok, value := DecodeVarint(s, NatOf(ZigZag(n)));
    r := 0;
    if !ok {
      return;
    }
    var unfolded := UnZigZag(value);
    if !(size == 1 || size == 2 || size == 4 || size == 8) {
      return false, 0;
    }
    CastKeeps(unfolded, size);
    var clamped := CastSigned(unfolded, size);
    if clamped != unfolded {
      return false, 0;
    }
    r := clamped;
  }

  /** pb_dec_bool. */
  method DecBool(s: IStream, ghost n: int) returns (ok: bool, r: int)
    requires s.Valid()
    modifies s
    ensures s.Valid() && s.pos + s.left == old(s.pos + s.left) && s.pos >= old(s.pos) && (ok ==> s.pos > old(s.pos))
    ensures ok ==> ScalarOk(Bool, r)
    ensures ScalarOk(Bool, n) && old(Starts(s.Rest(), ScalarBytes(Bool, n))) ==>
      ok && r == n && s.Rest() == Past(old(s.Rest()), ScalarBytes(Bool, n))
  {
    hide Varint, Starts, Past, VarintIs;
    var value, eof;
    ok, value, eof := DecodeVarint32Eof(s, NatOf(n));
    r := if value != 0 then 1 else 0;
  }

  /** pb_decode_fixed32. */
  method DecFixed32(s: IStream, ghost n: int) returns (ok: bool, r: int)
    requires s.Valid()
    modifies s
    ensures s.Valid() && s.pos + s.left == old(s.pos + s.left) && s.pos >= old(s.pos) && (ok ==> s.pos > old(s.pos))
    ensures ok ==> ScalarOk(Fixed32, r)
    ensures ScalarOk(Fixed32, n) && old(Starts(s.Rest(), ScalarBytes(Fixed32, n))) ==>
      ok && r == n && s.Rest() == Past(old(s.Rest()), ScalarBytes(Fixed32, n))
  {
    hide EncodeFixed32, DecodeFixed32;
    RestIs(s);
    PartOf(s.Rest(), ScalarBytes(Fixed32, n));
    var b;
    ok, b := s.Read(4);
    r := 0;
    if ok {
      r := DecodeFixed32(b);
    }
    if ScalarOk(Fixed32, n) { Fixed32RoundTrip(n); }
  }

  /** pb_decode_fixed64. */
  method DecFixed64(s: IStream, ghost n: int) returns (ok: bool, r: int)
    requires s.Valid()
    modifies s
    ensures s.Valid() && s.pos + s.left == old(s.pos + s.left) && s.pos >= old(s.pos) && (ok ==> s.pos > old(s.pos))
    ensures ok ==> ScalarOk(Fixed64, r)
    ensures ScalarOk(Fixed64, n) && old(Starts(s.Rest(), ScalarBytes(Fixed64, n))) ==>
      ok && r == n && s.Rest() == Past(old(s.Rest()), ScalarBytes(Fixed64, n))
  {
    hide Fixed64Bytes, DecodeFixed64;
    RestIs(s);
    PartOf(s.Rest(), ScalarBytes(Fixed64, n));
    var b;
    ok, b := s.Read(8);
    r := 0;
    if ok {
      r := DecodeFixed64(b);
    }
    if ScalarOk(Fixed64, n) { Fixed64RoundTrip(n); }
  }

  method DecScalar(s: IStream, k: Kind, ghost n: int) returns (ok: bool, r: int)
    requires s.Valid() && Packable(k)
    modifies s
    ensures s.Valid() && s.pos + s.left == old(s.pos + s.left) && s.pos >= old(s.pos) && (ok ==> s.pos > old(s.pos))
    ensures ok ==> ScalarOk(k, r)
    ensures ScalarOk(k, n) && old(Starts(s.Rest(), ScalarBytes(k, n))) ==>
      ok && r == n && s.Rest() == Past(old(s.Rest()), ScalarBytes(k, n))
  {
    hide ScalarBytes, ScalarOk, Starts, Past, IStream.Rest;
    match k
    case Bool => ok, r := DecBool(s, n);
    case Signed(size) => ok, r := DecSigned(s, size, n);
    case Unsigned(size) => ok, r := DecUnsigned(s, size, n);
    case ZigZagged(size) => ok, r := DecZigZag(s, size, n);
    case Fixed32 => ok, r := DecFixed32(s, n);
    case Fixed64 => ok, r := DecFixed64(s, n);
  }

  // ------------------------------------------------------------ byte strings

  /** A length, no more than limit, and as many bytes. */
  method DecLimited(s: IStream, limit: int, ghost x: Bytes) returns (ok: bool, b: Bytes)
    requires s.Valid()
    modifies s
    ensures s.Valid() && s.pos + s.left == old(s.pos + s.left) && s.pos >= old(s.pos)
    ensures ok ==> |b| <= limit
    ensures |x| <= limit && |x| < 0x1_0000_0000 && old(Starts(s.Rest(), Prefixed(x))) ==>
      ok && b == x && s.Rest() == Past(old(s.Rest()), Prefixed(x))
  {
    hide Varint, Starts, Past, VarintIs;
    PrefixedStarts(s.Rest(), x);
    var size, eof;
    ok, size, eof := DecodeVarint32Eof(s, |x|);
    b := [];
    if !ok {
      return;
    }
    if size > limit {
      return false, [];
    }
    PartOf(s.Rest(), x);
    ok, b := s.Read(size);
  }

  /** A C string ends before its first zero. */
  function CString(b: Bytes): (r: Bytes)
    ensures |r| <= |b| && (forall i :: 0 <= i < |r| ==> r[i] == b[i] && r[i] != 0)
    ensures |r| < |b| ==> b[|r|] == 0
  {
    if b == [] || b[0] == 0 then [] else [b[0]] + CString(b[1..])
  }

  lemma NoZeros(b: Bytes)
    ensures (forall x :: x in b ==> x != 0) ==> CString(b) == b
    ensures forall x :: x in CString(b) ==> x != 0
  {
    if |CString(b)| < |b| { assert b[|CString(b)|] in b; }
  }

  /** pb_dec_fixed_length_bytes: an empty string stands for zeros. */
  method DecBlock(s: IStream, length: nat, ghost x: Bytes) returns (ok: bool, b: Bytes)
    requires s.Valid()
    modifies s
    ensures s.Valid() && s.pos + s.left == old(s.pos + s.left) && s.pos >= old(s.pos)
    ensures ok ==> |b| == length
    ensures |x| == length && |x| < 0x1_0000_0000 && old(Starts(s.Rest(), Prefixed(x))) ==>
      ok && b == x && s.Rest() == Past(old(s.Rest()), Prefixed(x))
  {
    hide Varint, Starts, Past, VarintIs;
    PrefixedStarts(s.Rest(), x);
    var size, eof;
    ok, size, eof := DecodeVarint32Eof(s, |x|);
    b := [];
    if !ok {
      return;
    }
    PartOf(s.Rest(), x);
    if size == 0 {
      return true, seq(length, _ => 0);
    }
    if size != length {
      return false, [];
    }
    ok, b := s.Read(length);
  }
}
