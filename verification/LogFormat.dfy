/** The format of a log file: physical records in 32 KB blocks, and the fragments of a record. */
module LogFormat {
  import opened Coding

  /** crc32c::Value, about which nothing is assumed. */
  type Checksum = Bytes -> Word

  const BLOCK: nat := 32768
  const HEADER: nat := 7
  const MASK_DELTA: Word := 0xa282ead8

  const FULL: Byte := 1
  const FIRST: Byte := 2
  const MIDDLE: Byte := 3
  const LAST: Byte := 4

  // ------------------------------------------------------------ masked checksums

  /** Rotate right by 15 bits and add a constant. */
  function Mask(crc: Word): Word {
    (crc / 0x8000 + (crc % 0x8000) * 0x2_0000 + MASK_DELTA) % 0x1_0000_0000
  }

  function Unmask(masked: Word): Word {
    var rot := (masked - MASK_DELTA) % 0x1_0000_0000;
    rot / 0x2_0000 + (rot % 0x2_0000) * 0x8000
  }

  lemma UnmaskUndoesMask(crc: Word)
    ensures Unmask(Mask(crc)) == crc
  {
    var a, b := crc / 0x8000, crc % 0x8000;
    var rot := a + b * 0x2_0000;
    assert (Mask(crc) - MASK_DELTA) % 0x1_0000_0000 == rot;
    assert rot / 0x2_0000 == b && rot % 0x2_0000 == a;
  }

  // ------------------------------------------------------------ physical records

  datatype Phys = Phys(typ: Byte, payload: Bytes)

  function PhysBytes(crc: Checksum, p: Phys): (r: Bytes)
    requires |p.payload| <= 0xffff
    ensures |r| == HEADER + |p.payload|
  {
    EncodeFixed32(Mask(crc([p.typ] + p.payload))) + [|p.payload| % 256, |p.payload| / 256, p.typ] + p.payload
  }

  /** Where a header that follows offset off is placed: never in the last six bytes of a block. */
  function HeaderAt(off: nat): (r: nat)
    ensures off <= r < off + HEADER && r % BLOCK + HEADER <= BLOCK
  {
    if BLOCK - off % BLOCK < HEADER then off + (BLOCK - off % BLOCK) else off
  }

  function Zeros(n: nat): Bytes {
    seq(n, _ => 0)
  }

  /** A physical record placed after offset off stays inside its block. */
  predicate FitsAt(p: Phys, off: nat) {
    HeaderAt(off) % BLOCK + HEADER + |p.payload| <= BLOCK
  }

  /** What a physical record adds to a log of length off: the trailer of the block, if any, and itself. */
  function Placed(crc: Checksum, p: Phys, off: nat): (r: Bytes)
    requires FitsAt(p, off)
    ensures |r| == HeaderAt(off) - off + HEADER + |p.payload|
  {
    Zeros(HeaderAt(off) - off) + PhysBytes(crc, p)
  }

  /** The length of a log of these physical records. */
  function EndOf(ps: seq<Phys>): nat {
    if ps == [] then 0 else HeaderAt(EndOf(ps[..|ps| - 1])) + HEADER + |ps[|ps| - 1].payload|
  }

  ghost predicate AllFit(ps: seq<Phys>) {
    forall k :: 0 <= k < |ps| ==> FitsAt(ps[k], EndOf(ps[..k]))
  }

  lemma FitPrefix(ps: seq<Phys>, k: nat)
    requires AllFit(ps) && k <= |ps|
    ensures AllFit(ps[..k])
  {
    forall i | 0 <= i < k ensures FitsAt(ps[..k][i], EndOf(ps[..k][..i])) { assert ps[..k][..i] == ps[..i]; }
  }

  /** The bytes of a log. */
  function Layout(crc: Checksum, ps: seq<Phys>): (r: Bytes)
    requires AllFit(ps)
    ensures |r| == EndOf(ps)
  {
    if ps == [] then []
    else
      var n := |ps| - 1;
      FitPrefix(ps, n);
      Layout(crc, ps[..n]) + Placed(crc, ps[n], EndOf(ps[..n]))
  }

  lemma {:induction false} LayoutPrefix(crc: Checksum, ps: seq<Phys>, k: nat)
    requires AllFit(ps) && k <= |ps|
    ensures AllFit(ps[..k]) && Layout(crc, ps[..k]) <= Layout(crc, ps) && EndOf(ps[..k]) <= EndOf(ps)
    decreases |ps|
  {
    hide Placed, FitsAt, HeaderAt;
    FitPrefix(ps, k);
    if k < |ps| {
      var n := |ps| - 1;
      FitPrefix(ps, n);
      LayoutPrefix(crc, ps[..n], k);
      assert ps[..n][..k] == ps[..k];
    } else {
      assert ps[..k] == ps;
    }
  }

  /** Where the k-th physical record lies in the log. */
  lemma RecordInLayout(crc: Checksum, ps: seq<Phys>, k: nat)
    requires AllFit(ps) && k < |ps|
    ensures var a := HeaderAt(EndOf(ps[..k]));
      EndOf(ps[..k + 1]) == a + HEADER + |ps[k].payload| <= EndOf(ps) &&
      FitsAt(ps[k], EndOf(ps[..k])) && Layout(crc, ps)[a..a + HEADER + |ps[k].payload|] == PhysBytes(crc, ps[k])
  {
    hide PhysBytes, FitsAt, HeaderAt, AllFit, Layout, EndOf, Placed;
    LayoutPrefix(crc, ps, k + 1);
    LayoutPrefix(crc, ps, k);
    FitsInside(ps, k);
    LayoutStep(crc, ps, k);
    PlacedInside(crc, ps[k], Layout(crc, ps[..k]), Layout(crc, ps));
  }

  lemma LayoutStep(crc: Checksum, ps: seq<Phys>, k: nat)
    requires k < |ps| && AllFit(ps[..k]) && AllFit(ps[..k + 1]) && FitsAt(ps[k], EndOf(ps[..k]))
    ensures Layout(crc, ps[..k + 1]) == Layout(crc, ps[..k]) + Placed(crc, ps[k], EndOf(ps[..k]))
    ensures EndOf(ps[..k + 1]) == HeaderAt(EndOf(ps[..k])) + HEADER + |ps[k].payload|
  {
    hide FitsAt, AllFit, Placed, HeaderAt;
    var q := ps[..k + 1];
    assert q[..k] == ps[..k] && q[k] == ps[k];
  }

  /** Where the bytes of a physical record are in the log it was added to. */
  lemma PlacedInside(crc: Checksum, p: Phys, x: Bytes, whole: Bytes)
    requires FitsAt(p, |x|) && x + Placed(crc, p, |x|) <= whole
    ensures var a := HeaderAt(|x|); a + HEADER + |p.payload| <= |whole| && whole[a..a + HEADER + |p.payload|] == PhysBytes(crc, p)
  {
    hide PhysBytes, HeaderAt;
    SliceOf(x, Zeros(HeaderAt(|x|) - |x|), PhysBytes(crc, p), whole);
  }

  lemma FitsInside(ps: seq<Phys>, k: nat)
    requires AllFit(ps) && k < |ps|
    ensures FitsAt(ps[k], EndOf(ps[..k]))
  {
  }

  lemma SliceOf(x: Bytes, z: Bytes, b: Bytes, whole: Bytes)
    requires x + (z + b) <= whole
    ensures whole[|x| + |z|..|x| + |z| + |b|] == b
  {
    assert (x + (z + b))[|x| + |z|..] == b;
  }

  // ------------------------------------------------------------ fragments of a record

  function Available(off: nat): nat {
    BLOCK - HeaderAt(off) % BLOCK - HEADER
  }

  function TypeOf(begin: bool, end: bool): Byte {
    if begin && end then FULL else if begin then FIRST else if end then LAST else MIDDLE
  }

  /** The fragments of a record, or of the rest of one, written at offset off. */
  function Fragments(r: Bytes, off: nat, begin: bool): seq<Phys>
    decreases |r|, if Available(off) == 0 then 1 else 0
  {
    var avail := Available(off);
    var len := if |r| < avail then |r| else avail;
    var p := Phys(TypeOf(begin, |r| == len), r[..len]);
    if |r| == len then [p] else [p] + Fragments(r[len..], HeaderAt(off) + HEADER + len, false)
  }

  /** The payloads of physical records, joined. */
  function Payload(ps: seq<Phys>): Bytes {
    if ps == [] then [] else Payload(ps[..|ps| - 1]) + ps[|ps| - 1].payload
  }

  /** g is a record r in fragments, or the rest of one. */
  ghost predicate IsRecord(g: seq<Phys>, r: Bytes, begin: bool) {
    g != [] && Payload(g) == r &&
    forall i :: 0 <= i < |g| ==> g[i].typ == TypeOf(begin && i == 0, i == |g| - 1)
  }

  lemma {:induction false} PayloadCons(p: Phys, ps: seq<Phys>)
    ensures Payload([p] + ps) == p.payload + Payload(ps)
  {
    if ps == [] {
      assert [p] + ps == [p] && [p][..0] == [];
    } else {
      var n := |ps| - 1;
      PayloadCons(p, ps[..n]);
      assert ([p] + ps)[..n + 1] == [p] + ps[..n];
    }
  }

  lemma {:induction false} FragmentsAreRecord(r: Bytes, off: nat, begin: bool)
    ensures IsRecord(Fragments(r, off, begin), r, begin)
    decreases |r|, if Available(off) == 0 then 1 else 0
  {
    hide HeaderAt, Available, IsRecord, TypeOf;
    var avail := Available(off);
    var len := if |r| < avail then |r| else avail;
    var p := Phys(TypeOf(begin, |r| == len), r[..len]);
    if |r| == len {
      OneIsRecord(p, begin);
      assert Fragments(r, off, begin) == [p] && r[..len] == r;
    } else {
      NextBlockHasRoom(off, len);
      var rest := Fragments(r[len..], HeaderAt(off) + HEADER + len, false);
      FragmentsAreRecord(r[len..], HeaderAt(off) + HEADER + len, false);
      ConsIsRecord(p, rest, r[len..], begin);
      assert r == r[..len] + r[len..];
      assert Fragments(r, off, begin) == [p] + rest;
    }
  }

  lemma ConsIsRecord(p: Phys, rest: seq<Phys>, r: Bytes, begin: bool)
    requires p.typ == TypeOf(begin, false) && IsRecord(rest, r, false)
    ensures IsRecord([p] + rest, p.payload + r, begin)
  {
    PayloadCons(p, rest);
  }

  lemma OneIsRecord(p: Phys, begin: bool)
    requires p.typ == TypeOf(begin, true)
    ensures IsRecord([p], p.payload, begin)
  {
    assert [p][..0] == [];
  }

  /** A fragment that fills its block is followed by one that starts a fresh block. */
  lemma NextBlockHasRoom(off: nat, len: nat)
    requires len == Available(off)
    ensures Available(HeaderAt(off) + HEADER + len) == BLOCK - HEADER
  {
    var a := HeaderAt(off);
    assert (a + HEADER + len) % BLOCK == 0;
  }

  /** ps, laid out from offset off on, fits; e is where it ends. */
  ghost predicate FitFrom(ps: seq<Phys>, off: nat, e: nat)
    decreases |ps|
  {
    if ps == [] then e == off
    else FitsAt(ps[0], off) && FitFrom(ps[1..], HeaderAt(off) + HEADER + |ps[0].payload|, e)
  }

  lemma {:induction false} FragmentsFit(r: Bytes, off: nat, begin: bool) returns (e: nat)
    ensures FitFrom(Fragments(r, off, begin), off, e)
    decreases |r|, if Available(off) == 0 then 1 else 0
  {
    hide HeaderAt, Fragments, FitFrom;
    var avail := Available(off);
    var len := if |r| < avail then |r| else avail;
    var p := Phys(TypeOf(begin, |r| == len), r[..len]);
    FragmentsBegin(r, off, begin, len);
    FirstFits(p, off);
    if |r| == len {
      e := HeaderAt(off) + HEADER + len;
      NothingFits(e);
      FitsThen(p, [], off, e);
      assert [p] + [] == [p];
    } else {
      NextBlockHasRoom(off, len);
      e := FragmentsFit(r[len..], HeaderAt(off) + HEADER + len, false);
      FitsThen(p, Fragments(r[len..], HeaderAt(off) + HEADER + len, false), off, e);
    }
  }

  lemma FragmentsBegin(r: Bytes, off: nat, begin: bool, len: nat)
    requires len == if |r| < Available(off) then |r| else Available(off)
    ensures var p := Phys(TypeOf(begin, |r| == len), r[..len]);
      Fragments(r, off, begin) == if |r| == len then [p] else [p] + Fragments(r[len..], HeaderAt(off) + HEADER + len, false)
  {
  }

  lemma FirstFits(p: Phys, off: nat)
    requires |p.payload| <= Available(off)
    ensures FitsAt(p, off)
  {
  }

  lemma NothingFits(e: nat)
    ensures FitFrom([], e, e)
  {
  }

  lemma FitsThen(p: Phys, ps: seq<Phys>, off: nat, e: nat)
    requires FitsAt(p, off) && FitFrom(ps, HeaderAt(off) + HEADER + |p.payload|, e)
    ensures FitFrom([p] + ps, off, e)
  {
    hide HeaderAt, FitsAt;
    assert ([p] + ps)[1..] == ps;
  }

  lemma OneMoreFits(ps: seq<Phys>, p: Phys)
    requires AllFit(ps) && FitsAt(p, EndOf(ps))
    ensures AllFit(ps + [p]) && EndOf(ps + [p]) == HeaderAt(EndOf(ps)) + HEADER + |p.payload|
  {
    hide HeaderAt, FitsAt;
    var one := ps + [p];
    assert one[..|ps|] == ps;
    forall k | 0 <= k < |one| ensures FitsAt(one[k], EndOf(one[..k])) {
      if k < |ps| { assert one[..k] == ps[..k]; }
    }
  }

  lemma {:induction false} AppendFits(ps: seq<Phys>, qs: seq<Phys>, e: nat)
    requires AllFit(ps) && FitFrom(qs, EndOf(ps), e)
    ensures AllFit(ps + qs) && EndOf(ps + qs) == e
    decreases |qs|
  {
    hide HeaderAt, FitsAt, AllFit, EndOf;
    if qs == [] {
      assert ps + qs == ps;
    } else {
      var one := ps + [qs[0]];
      OneMoreFits(ps, qs[0]);
      AppendFits(one, qs[1..], e);
      assert one + qs[1..] == ps + qs;
    }
  }

  // ------------------------------------------------------------ logs of records

  /** The physical records of a log to which these records were added. */
  function LogOf(rs: seq<Bytes>): seq<Phys> {
    if rs == [] then []
    else var before := LogOf(rs[..|rs| - 1]); before + Fragments(rs[|rs| - 1], EndOf(before), true)
  }

  lemma {:induction false} LogFits(rs: seq<Bytes>)
    ensures AllFit(LogOf(rs))
  {
    hide AllFit, Fragments, EndOf;
    if rs == [] {
      EmptyFits();
    } else {
      var before := LogOf(rs[..|rs| - 1]);
      LogFits(rs[..|rs| - 1]);
      var e := FragmentsFit(rs[|rs| - 1], EndOf(before), true);
      AppendFits(before, Fragments(rs[|rs| - 1], EndOf(before), true), e);
    }
  }

  lemma EmptyFits()
    ensures AllFit([])
  {
  }

  /** The bytes of a log to which these records were added. */
  function LogBytes(crc: Checksum, rs: seq<Bytes>): Bytes {
    LogFits(rs);
    Layout(crc, LogOf(rs))
  }

  lemma {:induction false} LogPrefix(rs: seq<Bytes>, i: nat)
    requires i <= |rs|
    ensures LogOf(rs[..i]) <= LogOf(rs)
    decreases |rs|
  {
    hide Fragments, EndOf;
    if i < |rs| {
      LogPrefix(rs[..|rs| - 1], i);
      assert rs[..|rs| - 1][..i] == rs[..i];
    } else {
      assert rs[..i] == rs;
    }
  }
}
