/** Bloom filters: bits chosen by double hashing, for any hash function. */
module Bloom {
  import opened Coding

  function Bit(x: nat, i: nat): bool {
    if i == 0 then x % 2 == 1 else Bit(x / 2, i - 1)
  }

  function WithBit(x: nat, i: nat): (r: nat) {
    if i == 0 then x / 2 * 2 + 1 else 2 * WithBit(x / 2, i - 1) + x % 2
  }

  lemma {:induction false} WithBitSets(x: nat, i: nat, j: nat)
    ensures Bit(WithBit(x, i), j) <==> j == i || Bit(x, j)
  {
    if i > 0 && j > 0 { WithBitSets(x / 2, i - 1, j - 1); }
  }

  lemma {:induction false} WithBitFits(x: nat, i: nat, n: nat)
    requires x < Pow2(n) && i < n
    ensures WithBit(x, i) < Pow2(n)
  {
    hide Pow2, WithBit;
    Doubled(n - 1);
    BitUnfolds(x, i);
    HalfFits(x, Pow2(n - 1));
    if i > 0 { WithBitFits(x / 2, i - 1, n - 1); }
  }

  lemma Doubled(n: nat)
    ensures Pow2(n + 1) == 2 * Pow2(n)
  {
  }

  lemma BitUnfolds(x: nat, i: nat)
    ensures WithBit(x, i) == if i == 0 then x / 2 * 2 + 1 else 2 * WithBit(x / 2, i - 1) + x % 2
  {
  }

  lemma HalfFits(x: nat, p: nat)
    requires x < 2 * p
    ensures x / 2 < p && x / 2 * 2 + 1 < 2 * p && x % 2 <= 1
  {
  }

  lemma EightBits()
    ensures Pow2(8) == 256
  {
    assert Pow2(4) == 16;
  }

  predicate BitSet(b: Bytes, p: nat) {
    p / 8 < |b| && Bit(b[p / 8], p % 8)
  }

  function SetBit(b: Bytes, p: nat): (r: Bytes)
    ensures |r| == |b|
  {
    if p / 8 < |b| then
      WithBitFits(b[p / 8], p % 8, 8); EightBits();
      b[p / 8 := WithBit(b[p / 8], p % 8)]
    else b
  }

  lemma SetBitSets(b: Bytes, p: nat, q: nat)
    ensures BitSet(SetBit(b, p), q) <==> BitSet(b, q) || (q == p && p / 8 < |b|)
  {
    if p / 8 < |b| && q / 8 == p / 8 { WithBitSets(b[p / 8], p % 8, q % 8); }
  }

  // ------------------------------------------------------------ probes

  /** Rotating right by 17 bits. */
  function Rotated(h: Word): Word {
    h / 0x2_0000 + h % 0x2_0000 * 0x8000
  }

  /** The j-th hash value. */
  function Probe(h: Word, j: nat): Word {
    if j == 0 then h else (Probe(h, j - 1) + Rotated(h)) % 0x1_0000_0000
  }

  /** b after the first j probes. */
  function Probed(b: Bytes, h: Word, j: nat): (r: Bytes)
    ensures |r| == |b|
  {
    if j == 0 || b == [] then b else SetBit(Probed(b, h, j - 1), Probe(h, j - 1) % (8 * |b|))
  }

  function AllProbed(b: Bytes, keys: seq<Bytes>, k: nat, hash: Bytes -> Word): (r: Bytes)
    ensures |r| == |b|
  {
    if keys == [] then b else Probed(AllProbed(b, keys[..|keys| - 1], k, hash), hash(keys[|keys| - 1]), k)
  }

  /** The bits of a filter for n keys, no fewer than 64, in whole bytes. */
  function FilterBytes(n: nat, bitsPerKey: nat): (r: nat)
    ensures r >= 8
  {
    var bits := n * bitsPerKey;
    ((if bits < 64 then 64 else bits) + 7) / 8
  }

  /** The filter for these keys: the bits, then the number of probes. */
  function BloomFilter(keys: seq<Bytes>, bitsPerKey: nat, k: Byte, hash: Bytes -> Word): Bytes {
    AllProbed(seq(FilterBytes(|keys|, bitsPerKey), _ => 0), keys, k, hash) + [k]
  }

  predicate AllSet(bitmap: Bytes, h: Word, k: nat) {
    forall j :: 0 <= j < k ==> bitmap != [] && BitSet(bitmap, Probe(h, j) % (8 * |bitmap|))
  }

  predicate MayMatch(key: Bytes, filter: Bytes, hash: Bytes -> Word) {
    |filter| >= 2 && (filter[|filter| - 1] > 30 || AllSet(filter[..|filter| - 1], hash(key), filter[|filter| - 1]))
  }

  /** BloomFilterPolicy::CreateFilter, of the bytes it appends. */
  method CreateFilter(keys: seq<Bytes>, bitsPerKey: nat, k: Byte, hash: Bytes -> Word) returns (r: Bytes)
    ensures r == BloomFilter(keys, bitsPerKey, k, hash)
  {
    hide SetBit, Rotated;
    var bits := |keys| * bitsPerKey;
    if bits < 64 {
      bits := 64;
    }
    var bytes := (bits + 7) / 8;
    bits := bytes * 8;
    var bitmap: Bytes := seq(bytes, _ => 0);
    ghost var zeros := bitmap;
    for i := 0 to |keys|
      invariant |bitmap| == bytes && bitmap == AllProbed(zeros, keys[..i], k, hash)
    {
      var h := hash(keys[i]);
      var delta := Rotated(h);
      ghost var before := bitmap;
      for j := 0 to k
        invariant |bitmap| == bytes && h == Probe(hash(keys[i]), j) && bitmap == Probed(before, hash(keys[i]), j)
      {
        bitmap := SetBit(bitmap, h % bits);
        h := (h + delta) % 0x1_0000_0000;
      }
      assert keys[..i + 1][..i] == keys[..i];
    }
    assert keys[..|keys|] == keys;
    r := bitmap + [k];
  }

  lemma NoProbes(bitmap: Bytes, h: Word)
    ensures Probe(h, 0) == h && AllSet(bitmap, h, 0)
  {
  }

  lemma OneMoreProbe(bitmap: Bytes, h: Word, j: nat, k: nat)
    requires AllSet(bitmap, h, j) && bitmap != [] && j < k
    ensures Probe(h, j + 1) == (Probe(h, j) + Rotated(h)) % 0x1_0000_0000
    ensures if BitSet(bitmap, Probe(h, j) % (|bitmap| * 8)) then AllSet(bitmap, h, j + 1) else !AllSet(bitmap, h, k)
  {
    hide BitSet, Rotated;
  }

  /** BloomFilterPolicy::KeyMayMatch. */
  method KeyMayMatch(key: Bytes, filter: Bytes, hash: Bytes -> Word) returns (r: bool)
    ensures r == MayMatch(key, filter, hash)
  {
    hide BitSet, Rotated, Probe, AllSet;
    if |filter| < 2 {
      return false;
    }
    var bitmap, k := filter[..|filter| - 1], filter[|filter| - 1];
    var bits := |bitmap| * 8;
    if k > 30 {
      return true;
    }
    var h := hash(key);
    var delta := Rotated(h);
    NoProbes(bitmap, h);
    for j := 0 to k
      invariant h == Probe(hash(key), j) && AllSet(bitmap, hash(key), j)
    {
      OneMoreProbe(bitmap, hash(key), j, k);
      if !BitSet(bitmap, h % bits) {
        return false;
      }
      h := (h + delta) % 0x1_0000_0000;
    }
    r := true;
  }

  // ------------------------------------------------------------ no false negatives

  lemma {:induction false} ProbedKeeps(b: Bytes, h: Word, j: nat, p: nat)
    requires BitSet(b, p)
    ensures BitSet(Probed(b, h, j), p)
  {
    hide SetBit, BitSet;
    if j > 0 && b != [] {
      ProbedKeeps(b, h, j - 1, p);
      SetBitSets(Probed(b, h, j - 1), Probe(h, j - 1) % (8 * |b|), p);
    }
  }

  lemma {:induction false} ProbedSets(b: Bytes, h: Word, k: nat)
    requires b != []
    ensures AllSet(Probed(b, h, k), h, k)
  {
    hide SetBit, BitSet;
    if k > 0 {
      ProbedSets(b, h, k - 1);
      var before, p := Probed(b, h, k - 1), Probe(h, k - 1) % (8 * |b|);
      forall j | 0 <= j < k ensures BitSet(Probed(b, h, k), Probe(h, j) % (8 * |b|)) {
        SetBitSets(before, p, Probe(h, j) % (8 * |b|));
      }
    }
  }

  lemma {:induction false} AllProbedSets(b: Bytes, keys: seq<Bytes>, k: nat, hash: Bytes -> Word, i: nat)
    requires b != [] && i < |keys|
    ensures AllSet(AllProbed(b, keys, k, hash), hash(keys[i]), k)
    decreases |keys|
  {
    hide Probed, BitSet;
    var n := |keys| - 1;
    var before := AllProbed(b, keys[..n], k, hash);
    if i == n {
      ProbedSets(before, hash(keys[n]), k);
    } else {
      AllProbedSets(b, keys[..n], k, hash, i);
      var h := hash(keys[i]);
      forall j | 0 <= j < k ensures BitSet(Probed(before, hash(keys[n]), k), Probe(h, j) % (8 * |b|)) {
        ProbedKeeps(before, hash(keys[n]), k, Probe(h, j) % (8 * |b|));
      }
    }
  }

  /** Every key of a filter matches it. */
  lemma KeysMatch(keys: seq<Bytes>, bitsPerKey: nat, k: Byte, hash: Bytes -> Word, key: Bytes)
    requires key in keys
    ensures MayMatch(key, BloomFilter(keys, bitsPerKey, k, hash), hash)
  {
    hide AllProbed, AllSet, FilterBytes;
    var i :| 0 <= i < |keys| && keys[i] == key;
    var zeros: Bytes := seq(FilterBytes(|keys|, bitsPerKey), _ => 0);
    AllProbedSets(zeros, keys, k, hash, i);
    var f := BloomFilter(keys, bitsPerKey, k, hash);
    assert f[..|f| - 1] == AllProbed(zeros, keys, k, hash);
  }
}
