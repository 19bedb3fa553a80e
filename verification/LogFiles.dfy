/** Writing a log and reading it back, whole or cut off at any byte. */
module LogFiles {
  import opened Coding
  import opened LogFormat

  lemma LayoutAppend(crc: Checksum, ps: seq<Phys>, p: Phys)
    requires AllFit(ps) && FitsAt(p, EndOf(ps))
    ensures AllFit(ps + [p]) && Layout(crc, ps + [p]) == Layout(crc, ps) + Placed(crc, p, EndOf(ps))
  {
    hide HeaderAt, FitsAt, Placed, AllFit;
    OneMoreFits(ps, p);
    assert (ps + [p])[..|ps|] == ps;
  }

  lemma FragmentsStep(r: Bytes, off: nat, begin: bool, len: nat)
    requires len == (if |r| < Available(off) then |r| else Available(off))
    ensures var p := Phys(TypeOf(begin, |r| == len), r[..len]);
      FitsAt(p, off) && |p.payload| <= 0xffff &&
      Fragments(r, off, begin) ==
        if |r| == len then [p] else [p] + Fragments(r[len..], HeaderAt(off) + HEADER + len, false)
  {
  }

  lemma PlacedParts(d: Bytes, crc: Checksum, p: Phys, off: nat)
    requires FitsAt(p, off)
    ensures d + Placed(crc, p, off) == d + Zeros(HeaderAt(off) - off) + PhysBytes(crc, p)
  {
  }

  lemma SameInBlock(a: nat, n: nat)
    ensures (a % BLOCK + n) % BLOCK == (a + n) % BLOCK
  {
  }

  /** The fragments still to be written. */
  function Remaining(rest: Bytes, off: nat, begin: bool): seq<Phys> {
    if begin || |rest| > 0 then Fragments(rest, off, begin) else []
  }

  lemma FragmentWritten(ps: seq<Phys>, r: Bytes, off: nat, begin: bool, len: nat)
    requires begin || |r| > 0
    requires len == (if |r| < Available(off) then |r| else Available(off))
    ensures var p, e := Phys(TypeOf(begin, |r| == len), r[..len]), HeaderAt(off) + HEADER + len;
      ps + Remaining(r, off, begin) == ps + [p] + Remaining(r[len..], e, false)
    ensures len < |r| ==> Available(HeaderAt(off) + HEADER + len) > 0
  {
    hide Fragments, HeaderAt, TypeOf, Available;
    FragmentsStep(r, off, begin, len);
    if len < |r| { NextBlockHasRoom(off, len); }
    var p := Phys(TypeOf(begin, |r| == len), r[..len]);
    assert ps + [p] + [] == ps + [p];
  }

  // ------------------------------------------------------------ the writer

  class Writer {
    const crc: Checksum
    var dest: Bytes
    var blockOffset: nat
    ghost var records: seq<Bytes>

    ghost predicate Valid()
      reads this
    {
      dest == LogBytes(crc, records) && InBlock()
    }

    /** block_offset_ is the offset in the current block; a full block counts as its end. */
    predicate InBlock()
      reads this
    {
      blockOffset <= BLOCK && blockOffset % BLOCK == |dest| % BLOCK
    }

    constructor (crc: Checksum)
      ensures Valid() && records == [] && dest == [] && this.crc == crc
    {
      this.crc := crc;
      dest := [];
      blockOffset := 0;
      records := [];
    }

    method EmitPhysicalRecord(t: Byte, payload: Bytes)
      requires |payload| <= 0xffff && blockOffset + HEADER + |payload| <= BLOCK
      modifies this`dest, this`blockOffset
      ensures dest == old(dest) + PhysBytes(crc, Phys(t, payload))
      ensures blockOffset == old(blockOffset) + HEADER + |payload|
    {
      var header := [|payload| % 256, |payload| / 256, t];
      var sum := Mask(crc([t] + payload));
      dest := dest + (EncodeFixed32(sum) + header);
      dest := dest + payload;
      blockOffset := blockOffset + HEADER + |payload|;
    }

    /** Fills the trailer of a block in which no header fits, and starts the next one. */
    method StartHeader()
      requires InBlock()
      modifies this`dest, this`blockOffset
      ensures dest == old(dest) + Zeros(HeaderAt(|old(dest)|) - |old(dest)|)
      ensures blockOffset == HeaderAt(|old(dest)|) % BLOCK && blockOffset + HEADER <= BLOCK
    {
      var leftover := BLOCK - blockOffset;
      if leftover < HEADER {
        if leftover > 0 {
          dest := dest + Zeros(leftover);
        }
        blockOffset := 0;
      }
    }

    /** One turn of AddRecord: the next fragment of the rest of the record. */
    method AddFragment(ghost ps: seq<Phys>, rest: Bytes, begin: bool) returns (len: nat)
      requires AllFit(ps) && dest == Layout(crc, ps) && InBlock()
      modifies this`dest, this`blockOffset
      ensures len <= |rest| && InBlock() && old(dest) <= dest
      ensures len == (if |rest| < Available(|old(dest)|) then |rest| else Available(|old(dest)|))
      ensures |dest| == HeaderAt(|old(dest)|) + HEADER + len
      ensures var p := Phys(TypeOf(begin, |rest| == len), rest[..len]); AllFit(ps + [p]) && dest == Layout(crc, ps + [p])
    {
      hide LogOf, Fragments, AllFit, Layout, PhysBytes, FitsAt, Zeros, EndOf, Placed, HeaderAt;
      ghost var off, d := |dest|, dest;
      StartHeader();
      var avail := BLOCK - blockOffset - HEADER;
      len := if |rest| < avail then |rest| else avail;
      var end := |rest| == len;
      var t := if begin && end then FULL else if begin then FIRST else if end then LAST else MIDDLE;
      FragmentsStep(rest, off, begin, len);
      LayoutAppend(crc, ps, Phys(t, rest[..len]));
      EmitPhysicalRecord(t, rest[..len]);
      PlacedParts(d, crc, Phys(t, rest[..len]), off);
      SameInBlock(HeaderAt(off), HEADER + len);
    }

    /** Appends the record, in as many fragments as the blocks need. */
    method AddRecord(slice: Bytes)
      requires Valid()
      modifies this
      ensures Valid() && records == old(records) + [slice]
      ensures old(dest) <= dest
    {
      hide HeaderAt, LogOf, Fragments, AllFit, Layout, FitsAt, EndOf, Available, TypeOf;
      LogFits(records);
      ghost var before := LogOf(records);
      ghost var ps := before;
      var rest := slice;
      var begin := true;
      while begin || |rest| > 0
        invariant AllFit(ps) && dest == Layout(crc, ps) && InBlock() && old(dest) <= dest
        invariant records == old(records)
        invariant begin ==> rest == slice && ps == before
        invariant !begin && |rest| > 0 ==> Available(|dest|) > 0
        invariant |rest| <= |slice|
        invariant ps + Remaining(rest, |dest|, begin) == before + Fragments(slice, EndOf(before), true)
        decreases begin, |rest|
      {
        ghost var off := |dest|;
        var len := AddFragment(ps, rest, begin);
        FragmentWritten(ps, rest, off, begin, len);
        ps := ps + [Phys(TypeOf(begin, |rest| == len), rest[..len])];
        rest := rest[len..];
        begin := false;
      }
      LogAppend(records, slice);
      records := records + [slice];
      assert ps == LogOf(records);
    }

    lemma LogAppend(rs: seq<Bytes>, r: Bytes)
      ensures LogOf(rs + [r]) == LogOf(rs) + Fragments(r, EndOf(LogOf(rs)), true)
    {
      hide Fragments, EndOf;
      assert (rs + [r])[..|rs|] == rs;
    }
  }

  // ------------------------------------------------------------ what a reader finds

  const ZERO: Byte := 0
  const EOF := 5
  const BAD := 6

  /** The bytes belong to a log of ps, cut off anywhere, and pos is between the end of the k-th
      physical record and the header of the next. */
  ghost predicate NearAt(file: Bytes, crc: Checksum, ps: seq<Phys>, k: nat, pos: nat) {
    AllFit(ps) && AllTyped(ps) && k <= |ps| && file <= Layout(crc, ps) &&
    EndOf(ps[..k]) <= pos <= |file| && HeaderAt(pos) == HeaderAt(EndOf(ps[..k]))
  }

  ghost predicate AllTyped(ps: seq<Phys>) {
    forall p :: p in ps ==> FULL <= p.typ <= LAST
  }

  /** The k-th physical record lies wholly in the first n bytes. */
  ghost predicate Whole(ps: seq<Phys>, k: nat, n: nat) {
    k < |ps| && EndOf(ps[..k + 1]) <= n
  }

  lemma TrailerSkipped(file: Bytes, crc: Checksum, ps: seq<Phys>, k: nat, pos: nat, next: nat)
    requires NearAt(file, crc, ps, k, pos) && pos <= next < pos + HEADER && next % BLOCK == 0 && next <= |file|
    ensures NearAt(file, crc, ps, k, next)
  {
    hide AllFit, AllTyped, Layout, EndOf;
  }

  lemma NoHeaderLeft(file: Bytes, crc: Checksum, ps: seq<Phys>, k: nat, pos: nat)
    requires NearAt(file, crc, ps, k, pos) && |file| < pos + HEADER
    ensures !Whole(ps, k, |file|)
  {
    hide AllTyped, AllFit, Layout;
    if k < |ps| { RecordInLayout(crc, ps, k); }
  }

  /** Where a header can be read, it is that of the k-th record, and so is the payload as far as it goes. */
  lemma HeaderFound(file: Bytes, crc: Checksum, ps: seq<Phys>, k: nat, pos: nat, n: nat)
    requires NearAt(file, crc, ps, k, pos) && HEADER <= n && pos % BLOCK + n <= BLOCK && pos + n <= |file|
    ensures k < |ps| && FULL <= ps[k].typ <= LAST && |ps[k].payload| <= 0xffff
    ensures pos % BLOCK + HEADER + |ps[k].payload| <= BLOCK
    ensures EndOf(ps[..k + 1]) == pos + HEADER + |ps[k].payload|
    ensures file[pos..pos + HEADER] == PhysBytes(crc, ps[k])[..HEADER]
    ensures EndOf(ps[..k + 1]) <= |file| ==> file[pos..EndOf(ps[..k + 1])] == PhysBytes(crc, ps[k])
  {
    hide AllFit, Layout, EndOf, PhysBytes;
    assert HeaderAt(pos) == pos;
    assert ps[..|ps|] == ps;
    RecordInLayout(crc, ps, k);
    assert ps[k] in ps;
    var whole, e := Layout(crc, ps), pos + HEADER + |ps[k].payload|;
    SameSlice(file, whole, pos, pos + HEADER);
    assert whole[pos..e][..HEADER] == whole[pos..pos + HEADER];
    if e <= |file| { SameSlice(file, whole, pos, e); }
  }

  lemma SameSlice(file: Bytes, whole: Bytes, a: nat, b: nat)
    requires file <= whole && a <= b <= |file|
    ensures file[a..b] == whole[a..b]
  {
  }

  /** The header tells the length and the type, and its checksum is that of type and payload. */
  lemma HeaderFields(crc: Checksum, p: Phys)
    requires |p.payload| <= 0xffff
    ensures var b := PhysBytes(crc, p);
      b[4] as int + 256 * b[5] as int == |p.payload| && b[6] == p.typ &&
      Unmask(DecodeFixed32(b)) == crc([p.typ] + p.payload) && b[HEADER..] == p.payload && b[6..] == [p.typ] + p.payload
  {
    hide Mask, Unmask;
    var b, sum := PhysBytes(crc, p), Mask(crc([p.typ] + p.payload));
    assert b[..4] == EncodeFixed32(sum);
    assert DecodeFixed32(b) == DecodeFixed32(b[..4]);
    Fixed32RoundTrip(sum);
    UnmaskUndoesMask(crc([p.typ] + p.payload));
  }

  class Reader {
    const file: Bytes
    const crc: Checksum
    const checksum: bool
    var filePos: nat
    /** The bytes of the current block not yet consumed. */
    var buffer: Bytes
    /** The last read was short. */
    var eof: bool
    /** How many drops were reported. */
    var reported: nat

    ghost predicate Valid()
      reads `filePos, `buffer, `eof
    {
      |buffer| <= filePos <= |file| && buffer == file[filePos - |buffer|..filePos] &&
      Position() % BLOCK + |buffer| <= BLOCK && if eof then filePos == |file| else filePos % BLOCK == 0
    }

    /** How many bytes of the file have been consumed. */
    function Position(): int
      reads `filePos, `buffer
    {
      filePos - |buffer|
    }

    ghost predicate At(ps: seq<Phys>, k: nat)
      reads `filePos, `buffer, `eof
    {
      Valid() && Position() >= 0 && NearAt(file, crc, ps, k, Position())
    }

    constructor (file: Bytes, crc: Checksum, checksum: bool)
      ensures Valid() && Position() == 0 && reported == 0
      ensures this.file == file && this.crc == crc && this.checksum == checksum
    {
      this.file := file;
      this.crc := crc;
      this.checksum := checksum;
      filePos := 0;
      buffer := [];
      eof := false;
      reported := 0;
    }

    /** SequentialFile::Read of one block. */
    method ReadBlock()
      requires Valid() && !eof
      modifies this
      ensures Valid() && Position() == old(filePos) && reported == old(reported)
      ensures filePos == if |file| - old(filePos) < BLOCK then |file| else old(filePos) + BLOCK
      ensures eof == (|file| - old(filePos) < BLOCK)
    {
      var n := if |file| - filePos < BLOCK then |file| - filePos else BLOCK;
      buffer := file[filePos..filePos + n];
      filePos := filePos + n;
      if |buffer| < BLOCK {
        eof := true;
      }
    }

    /** Reads on until the buffer holds a header, or the end of the file. */
    method FindHeader(ghost ps: seq<Phys>, ghost k: nat) returns (found: bool)
      requires Valid()
      modifies this
      ensures Valid() && Position() >= old(Position()) && reported == old(reported)
      ensures found ==> |buffer| >= HEADER
      ensures old(At(ps, k)) ==> if found then At(ps, k) else !Whole(ps, k, |file|)
    {
      hide NearAt, Whole, Valid;
      ghost var near := At(ps, k);
      while |buffer| < HEADER
        invariant Valid() && Position() >= old(Position()) && reported == old(reported)
        invariant near ==> At(ps, k)
        decreases !eof, |file| - filePos
      {
        BufferIsFile();
        if eof {
          if near { NoHeaderLeft(file, crc, ps, k, Position()); }
          Consume(|buffer|);
          return false;
        }
        if near { TrailerSkipped(file, crc, ps, k, Position(), filePos); }
        ReadBlock();
      }
      found := true;
    }

    /** Takes the physical record at the front of the buffer, or drops the buffer. */
    method ParseRecord(ghost ps: seq<Phys>, ghost k: nat) returns (typ: int, result: Bytes)
      requires Valid() && |buffer| >= HEADER
      modifies this
      ensures Valid() && Position() > old(Position())
      ensures old(At(ps, k)) && Whole(ps, k, |file|) ==> typ == ps[k].typ && result == ps[k].payload && At(ps, k + 1)
      ensures old(At(ps, k)) && !Whole(ps, k, |file|) ==> typ == EOF
      ensures old(At(ps, k)) ==> reported == old(reported)
    {
      hide Unmask, DecodeFixed32, NearAt, Whole, Valid;
      ghost var near, pos := At(ps, k), Position();
      BufferIsFile();
      if near { RecordInBuffer(file, crc, ps, k, pos, buffer, eof); }
      var length := buffer[4] as int + 256 * buffer[5] as int;
      typ := buffer[6] as int;
      if HEADER + length > |buffer| {
        Consume(|buffer|);
        if !eof {
          reported := reported + 1;
          return BAD, [];
        }
        return EOF, [];
      }
      var whole := buffer[..HEADER + length];
      if typ == ZERO as int && length == 0 {
        Consume(|buffer|);
        return BAD, [];
      }
      if checksum {
        var expected := Unmask(DecodeFixed32(whole));
        if crc(whole[6..]) != expected {
          Consume(|buffer|);
          reported := reported + 1;
          return BAD, [];
        }
      }
      Consume(HEADER + length);
      result := whole[HEADER..];
    }

    /** buffer_.remove_prefix, or buffer_.clear when n is all of it. */
    method Consume(n: nat)
      requires Valid() && n <= |buffer|
      modifies this`buffer
      ensures Valid() && Position() == old(Position()) + n && buffer == old(buffer)[n..]
    {
      DropFront(file, Position(), buffer, n);
      StayInBlock(Position(), n, |buffer|);
      buffer := buffer[n..];
    }

    lemma BufferIsFile()
      requires Valid()
      ensures 0 <= Position() && Position() + |buffer| == filePos <= |file| && buffer == file[Position()..filePos]
      ensures Position() % BLOCK + |buffer| <= BLOCK && if eof then filePos == |file| else filePos % BLOCK == 0
    {
    }

    /** The next physical record, whatever the file holds; in a log of ps, the k-th one, or the end
        of the file when that record is not there whole. */
    method ReadPhysicalRecord(ghost ps: seq<Phys>, ghost k: nat) returns (typ: int, result: Bytes)
      requires Valid()
      modifies this
      ensures Valid() && Position() >= old(Position()) && (typ != EOF ==> Position() > old(Position()))
      ensures old(At(ps, k)) && Whole(ps, k, |file|) ==> typ == ps[k].typ && result == ps[k].payload && At(ps, k + 1)
      ensures old(At(ps, k)) && !Whole(ps, k, |file|) ==> typ == EOF
      ensures old(At(ps, k)) ==> reported == old(reported)
    {
      hide NearAt, Whole;
      var found := FindHeader(ps, k);
      if !found {
        return EOF, [];
      }
      typ, result := ParseRecord(ps, k);
    }

    /** The next record of any file, through the states of a fragmented record. In a log of rs cut
        off anywhere: record i if all of it is there, otherwise nothing; no drop is reported. */
    method ReadRecord(ghost rs: seq<Bytes>, ghost i: nat) returns (ok: bool, record: Bytes)
      requires Valid()
      modifies this
      ensures Valid() && Position() >= old(Position()) && (ok ==> Position() > old(Position()))
      ensures old(AtRecord(rs, i)) && Present(rs, i, |file|) ==> ok && record == rs[i] && AtRecord(rs, i + 1)
      ensures old(AtRecord(rs, i)) && !Present(rs, i, |file|) ==> !ok
      ensures old(AtRecord(rs, i)) ==> reported == old(reported)
    {
      hide Valid, At, Present, LogOf, Fragments, HeaderAt, EndOf, IsRecord;
      ghost var near, ps, j := AtRecord(rs, i), LogOf(rs), 0;
      ghost var base := if near then |LogOf(rs[..i])| else 0;
      var scratch: Bytes := [];
      var inFragmentedRecord := false;
      if near { StartOfRecord(rs, i); }
      while true
        invariant Valid() && Position() >= old(Position())
        invariant near ==> At(ps, base + j) && InRecord(rs, i, j, inFragmentedRecord, scratch)
        invariant near ==> reported == old(reported)
        decreases |file| - Position()
      {
        var typ, fragment := ReadPhysicalRecord(ps, base + j);
        BufferIsFile();
        if near {
          if Whole(ps, base + j, |file|) {
            NextFragment(rs, i, j, inFragmentedRecord, scratch);
          } else {
            NotPresent(rs, i, j, inFragmentedRecord, scratch, |file|);
          }
        }
        if typ == FULL as int {
          if inFragmentedRecord && scratch != [] {
            reported := reported + 1;
          }
          if near { RecordDone(rs, i, j, inFragmentedRecord, scratch, |file|); }
          return true, fragment;
        } else if typ == FIRST as int {
          if inFragmentedRecord && scratch != [] {
            reported := reported + 1;
          }
          scratch := fragment;
          inFragmentedRecord := true;
        } else if typ == MIDDLE as int {
          if !inFragmentedRecord {
            reported := reported + 1;
          } else {
            scratch := scratch + fragment;
          }
        } else if typ == LAST as int {
          if !inFragmentedRecord {
            reported := reported + 1;
          } else {
            if near { RecordDone(rs, i, j, inFragmentedRecord, scratch, |file|); }
            return true, scratch + fragment;
          }
        } else if typ == EOF {
          return false, [];
        } else if typ == BAD {
          if inFragmentedRecord {
            reported := reported + 1;
            inFragmentedRecord := false;
            scratch := [];
          }
        } else {
          reported := reported + 1;
          inFragmentedRecord := false;
          scratch := [];
        }
        j := j + 1;
      }
    }

    /** The next record to be read is record i. */
    ghost predicate AtRecord(rs: seq<Bytes>, i: nat)
      reads `filePos, `buffer, `eof
    {
      i <= |rs| && At(LogOf(rs), |LogOf(rs[..i])|)
    }
  }

  // ------------------------------------------------------------ records and their fragments

  /** All of record i lies in the first n bytes. */
  ghost predicate Present(rs: seq<Bytes>, i: nat, n: nat) {
    i < |rs| && EndOf(LogOf(rs[..i + 1])) <= n
  }

  function FragmentsOf(rs: seq<Bytes>, i: nat): seq<Phys>
    requires i < |rs|
  {
    Fragments(rs[i], EndOf(LogOf(rs[..i])), true)
  }

  /** j fragments of record i have been read, and scratch holds them. */
  ghost predicate InRecord(rs: seq<Bytes>, i: nat, j: nat, inFragmented: bool, scratch: Bytes) {
    i <= |rs| && (i == |rs| ==> j == 0) && (i < |rs| ==> j < |FragmentsOf(rs, i)| && scratch == Payload(FragmentsOf(rs, i)[..j])) &&
    (inFragmented <==> j > 0)
  }

  lemma StartOfRecord(rs: seq<Bytes>, i: nat)
    requires i <= |rs|
    ensures InRecord(rs, i, 0, false, [])
  {
    hide EndOf, LogOf;
    if i < |rs| {
      FragmentsAreRecord(rs[i], EndOf(LogOf(rs[..i])), true);
      assert FragmentsOf(rs, i)[..0] == [];
    }
  }

  /** The physical records of record i follow those of the records before it. */
  lemma FragmentsInLog(rs: seq<Bytes>, i: nat)
    requires i < |rs|
    ensures LogOf(rs[..i]) + FragmentsOf(rs, i) == LogOf(rs[..i + 1]) && LogOf(rs[..i + 1]) <= LogOf(rs)
  {
    hide EndOf, Fragments;
    assert rs[..i + 1][..i] == rs[..i];
    LogPrefix(rs, i + 1);
  }

  /** What fragment j of record i is, and what reading it leads to. */
  lemma NextFragment(rs: seq<Bytes>, i: nat, j: nat, inFragmented: bool, scratch: Bytes)
    requires InRecord(rs, i, j, inFragmented, scratch) && |LogOf(rs[..i])| + j < |LogOf(rs)|
    ensures i < |rs|
    ensures var p, g := LogOf(rs)[|LogOf(rs[..i])| + j], FragmentsOf(rs, i);
      p.typ == TypeOf(j == 0, j == |g| - 1) &&
      if j == |g| - 1 then scratch + p.payload == rs[i] else InRecord(rs, i, j + 1, true, scratch + p.payload)
    ensures j == 0 ==> scratch == []
  {
    hide EndOf, Fragments, LogOf, TypeOf;
    assert rs[..|rs|] == rs;
    FragmentsInLog(rs, i);
    var g := FragmentsOf(rs, i);
    FragmentsAreRecord(rs[i], EndOf(LogOf(rs[..i])), true);
    assert g[..j + 1][..j] == g[..j] && g[..|g|] == g && g[..0] == [];
    assert LogOf(rs)[|LogOf(rs[..i])| + j] == LogOf(rs[..i + 1])[|LogOf(rs[..i])| + j] == g[j];
  }

  /** A fragment that is not there whole leaves its record incomplete. */
  lemma NotPresent(rs: seq<Bytes>, i: nat, j: nat, inFragmented: bool, scratch: Bytes, n: nat)
    requires InRecord(rs, i, j, inFragmented, scratch) && !Whole(LogOf(rs), |LogOf(rs[..i])| + j, n)
    ensures !Present(rs, i, n)
  {
    hide EndOf, Fragments, LogOf;
    if i < |rs| {
      FragmentsInLog(rs, i);
      LogFits(rs);
      var k, m := |LogOf(rs[..i])| + j, |LogOf(rs[..i + 1])|;
      EndsGrow(LogOf(rs), k + 1, m);
      assert LogOf(rs)[..m] == LogOf(rs[..i + 1]);
    }
  }

  lemma EndsGrow(ps: seq<Phys>, a: nat, b: nat)
    requires AllFit(ps) && a <= b <= |ps|
    ensures EndOf(ps[..a]) <= EndOf(ps[..b])
  {
    hide AllFit;
    FitPrefix(ps, b);
    LayoutPrefix(_ => 0, ps[..b], a);
    assert ps[..b][..a] == ps[..a];
  }

  /** The last fragment of record i ends the record. */
  lemma RecordDone(rs: seq<Bytes>, i: nat, j: nat, inFragmented: bool, scratch: Bytes, n: nat)
    requires InRecord(rs, i, j, inFragmented, scratch) && i < |rs| && j == |FragmentsOf(rs, i)| - 1
    requires Whole(LogOf(rs), |LogOf(rs[..i])| + j, n)
    ensures Present(rs, i, n) && |LogOf(rs[..i + 1])| == |LogOf(rs[..i])| + j + 1
  {
    hide EndOf, Fragments, LogOf;
    FragmentsInLog(rs, i);
    var m := |LogOf(rs[..i + 1])|;
    assert LogOf(rs)[..m] == LogOf(rs[..i + 1]);
  }

  lemma DropFront(file: Bytes, pos: nat, buffer: Bytes, n: nat)
    requires n <= |buffer| && pos + |buffer| <= |file| && buffer == file[pos..pos + |buffer|]
    ensures buffer[n..] == file[pos + n..pos + |buffer|] && buffer[..n] == file[pos..pos + n]
  {
  }

  lemma StayInBlock(pos: nat, n: nat, m: nat)
    requires n <= m && pos % BLOCK + m <= BLOCK
    ensures (pos + n) % BLOCK + (m - n) <= BLOCK
  {
    SameInBlock(pos, n);
  }

  /** What the buffer holds of the k-th record. */
  lemma RecordInBuffer(file: Bytes, crc: Checksum, ps: seq<Phys>, k: nat, pos: nat, buffer: Bytes, eof: bool)
    requires NearAt(file, crc, ps, k, pos) && HEADER <= |buffer| && pos % BLOCK + |buffer| <= BLOCK
    requires pos + |buffer| <= |file| && buffer == file[pos..pos + |buffer|]
    requires if eof then pos + |buffer| == |file| else (pos + |buffer|) % BLOCK == 0
    ensures k < |ps| && FULL <= ps[k].typ <= LAST && buffer[6] == ps[k].typ
    ensures buffer[4] as int + 256 * buffer[5] as int == |ps[k].payload|
    ensures HEADER + |ps[k].payload| > |buffer| ==> eof && !Whole(ps, k, |file|)
    ensures HEADER + |ps[k].payload| <= |buffer| ==>
      var n := HEADER + |ps[k].payload|;
      Whole(ps, k, |file|) && NearAt(file, crc, ps, k + 1, pos + n) && buffer[..n][HEADER..] == ps[k].payload &&
      Unmask(DecodeFixed32(buffer[..n])) == crc(buffer[..n][6..])
  {
    hide PhysBytes, Unmask, DecodeFixed32, NearAt, EndOf, Whole;
    HeaderFound(file, crc, ps, k, pos, |buffer|);
    HeaderFields(crc, ps[k]);
    DropFront(file, pos, buffer, HEADER);
    SameHeader(PhysBytes(crc, ps[k]), buffer);
    var n := HEADER + |ps[k].payload|;
    if n > |buffer| {
      PayloadMissing(file, ps, k, pos, |buffer|, eof);
    } else {
      DropFront(file, pos, buffer, n);
      WholeRecord(file, crc, ps, k, pos, buffer[..n]);
      NextIsNear(file, crc, ps, k, pos);
    }
  }

  lemma SameHeader(b: Bytes, buffer: Bytes)
    requires |b| >= HEADER && |buffer| >= HEADER && buffer[..HEADER] == b[..HEADER]
    ensures buffer[4] == b[4] && buffer[5] == b[5] && buffer[6] == b[6]
  {
    assert buffer[4] == buffer[..HEADER][4] && buffer[5] == buffer[..HEADER][5] && buffer[6] == buffer[..HEADER][6];
  }

  /** All the bytes of the k-th record are in the buffer. */
  lemma WholeRecord(file: Bytes, crc: Checksum, ps: seq<Phys>, k: nat, pos: nat, whole: Bytes)
    requires k < |ps| && EndOf(ps[..k + 1]) == pos + HEADER + |ps[k].payload| && |ps[k].payload| <= 0xffff
    requires |whole| == HEADER + |ps[k].payload| && pos + |whole| <= |file| && whole == file[pos..pos + |whole|]
    requires EndOf(ps[..k + 1]) <= |file| ==> file[pos..EndOf(ps[..k + 1])] == PhysBytes(crc, ps[k])
    ensures Whole(ps, k, |file|) && whole == PhysBytes(crc, ps[k])
  {
  }

  /** A payload that is not all in the buffer is cut off by the end of the file. */
  lemma PayloadMissing(file: Bytes, ps: seq<Phys>, k: nat, pos: nat, n: nat, eof: bool)
    requires k < |ps| && EndOf(ps[..k + 1]) == pos + HEADER + |ps[k].payload| && pos + n <= |file|
    requires pos % BLOCK + HEADER + |ps[k].payload| <= BLOCK && HEADER + |ps[k].payload| > n
    requires if eof then pos + n == |file| else (pos + n) % BLOCK == 0
    requires HEADER <= n && pos % BLOCK + n <= BLOCK
    ensures eof && !Whole(ps, k, |file|)
  {
    hide EndOf;
    SameInBlock(pos, n);
  }

  lemma NextIsNear(file: Bytes, crc: Checksum, ps: seq<Phys>, k: nat, pos: nat)
    requires NearAt(file, crc, ps, k, pos) && Whole(ps, k, |file|)
    ensures NearAt(file, crc, ps, k + 1, EndOf(ps[..k + 1]))
  {
    hide AllFit, AllTyped, Layout, EndOf;
  }

  // ------------------------------------------------------------ whole logs

  /** How many of the records lie wholly in the first n bytes of their log. */
  function Complete(rs: seq<Bytes>, n: nat): (c: nat)
    ensures c <= |rs|
  {
    if rs == [] || EndOf(LogOf(rs)) <= n then |rs| else Complete(rs[..|rs| - 1], n)
  }

  lemma {:induction false} CompleteIsPresent(rs: seq<Bytes>, n: nat)
    ensures forall i :: 0 <= i < |rs| ==> (Present(rs, i, n) <==> i < Complete(rs, n))
  {
    hide LogOf, EndOf;
    if rs != [] {
      var init := rs[..|rs| - 1];
      CompleteIsPresent(init, n);
      forall i | 0 <= i < |rs| ensures Present(rs, i, n) <==> i < Complete(rs, n) {
        assert rs[..|rs|] == rs;
        if EndOf(LogOf(rs)) <= n {
          RecordEndsGrow(rs, i + 1);
        } else if i < |rs| - 1 {
          assert init[..i + 1] == rs[..i + 1];
          assert Present(rs, i, n) <==> Present(init, i, n);
        }
      }
    }
  }

  lemma RecordEndsGrow(rs: seq<Bytes>, i: nat)
    requires i <= |rs|
    ensures EndOf(LogOf(rs[..i])) <= EndOf(LogOf(rs))
  {
    hide LogOf, EndOf;
    LogFits(rs);
    LogPrefix(rs, i);
    EndsGrow(LogOf(rs), |LogOf(rs[..i])|, |LogOf(rs)|);
    assert LogOf(rs)[..|LogOf(rs)|] == LogOf(rs) && LogOf(rs)[..|LogOf(rs[..i])|] == LogOf(rs[..i]);
  }

  lemma {:induction false} LogIsTyped(rs: seq<Bytes>)
    ensures AllTyped(LogOf(rs))
  {
    hide Fragments, EndOf;
    if rs != [] {
      var before := LogOf(rs[..|rs| - 1]);
      LogIsTyped(rs[..|rs| - 1]);
      FragmentsAreRecord(rs[|rs| - 1], EndOf(before), true);
    }
  }

  lemma StartOfLog(file: Bytes, crc: Checksum, rs: seq<Bytes>)
    requires file <= LogBytes(crc, rs)
    ensures NearAt(file, crc, LogOf(rs), 0, 0) && |LogOf(rs[..0])| == 0
  {
    hide Fragments, AllFit, AllTyped;
    LogFits(rs);
    LogIsTyped(rs);
    assert LogOf(rs)[..0] == [] && rs[..0] == [];
  }

  lemma {:induction false} WholeLogIsComplete(crc: Checksum, rs: seq<Bytes>)
    ensures Complete(rs, |LogBytes(crc, rs)|) == |rs|
  {
    LogFits(rs);
  }

  /** Reads every record of a file (the loop of DBImpl::RecoverLogFile and of VersionSet::Recover).
      If the file is a log of rs cut off after any byte, exactly the records that are there whole come
      back, in order, and no drop is reported. */
  method ReadLog(file: Bytes, crc: Checksum, checksum: bool, ghost rs: seq<Bytes>)
    returns (records: seq<Bytes>, reported: nat)
    ensures file <= LogBytes(crc, rs) ==> records == rs[..Complete(rs, |file|)] && reported == 0
  {
    hide LogBytes, LogOf, NearAt, Present, Complete, Reader.Valid;
    ghost var good := file <= LogBytes(crc, rs);
    var reader := new Reader(file, crc, checksum);
    if good { StartOfLog(file, crc, rs); }
    CompleteIsPresent(rs, |file|);
    records := [];
    var ok, record := reader.ReadRecord(rs, 0);
    reader.BufferIsFile();
    while ok
      invariant fresh(reader) && reader.Valid()
      invariant good ==> reader.reported == 0
      invariant good ==> |records| + (if ok then 1 else 0) <= |rs| && records == rs[..|records|]
      invariant good && ok ==> record == rs[|records|] && |records| < Complete(rs, |file|)
      invariant good && ok ==> reader.AtRecord(rs, |records| + 1)
      invariant reader.Position() <= |file|
      invariant good && !ok ==> |records| == Complete(rs, |file|)
      decreases ok, |file| - reader.Position()
    {
      records := records + [record];
      ok, record := reader.ReadRecord(rs, |records|);
      reader.BufferIsFile();
    }
    reported := reader.reported;
  }
}
