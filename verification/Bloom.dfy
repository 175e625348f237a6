/** The Bloom filter stored in every SSTable (src/storage/sstable/bloom_filter.cpp). */
module Bloom {
  import opened Bytes
  import opened Serializer

  const BITS_PER_KEY: nat := 10
  /** std::round(std::log(2.0) * BITS_PER_KEY), already inside the clamp to 1..30. */
  const NUM_HASHES: nat := 7

  /** FNV-1a over the key from a given state. */
  function HashFrom(key: Str, hash: bv32): bv32 {
    if key == [] then hash else HashFrom(key[1..], (hash ^ (key[0] as bv32)) * 16777619)
  }

  function HashKey(key: Str, seed: bv32): bv32 {
    HashFrom(key, 2166136261 ^ seed)
  }

  /** Double hashing: (h1 + i * h2) in 32-bit arithmetic, then modulo the number of bits. */
  function Position(key: Str, i: nat, numBits: nat): (p: nat)
    requires numBits > 0
    ensures p < numBits
  {
    ((HashKey(key, 0xbc9f1d34) as nat + i * HashKey(key, 0x9747b28c) as nat) % U32_LIMIT) % numBits
  }

  function Mask(j: nat): bv8
    requires j < 8
  {
    if j == 0 then 1 else if j == 1 then 2 else if j == 2 then 4 else if j == 3 then 8
    else if j == 4 then 16 else if j == 5 then 32 else if j == 6 then 64 else 128
  }

  /** Bit `j` of byte `i`. */
  predicate BitAt(bits: seq<Byte>, i: nat, j: nat)
    requires i < |bits| && j < 8
  {
    bits[i] & Mask(j) != 0
  }

  function SetAt(bits: seq<Byte>, i: nat, j: nat): (r: seq<Byte>)
    requires i < |bits| && j < 8
    ensures |r| == |bits|
  {
    bits[i := bits[i] | Mask(j)]
  }

  predicate BitSet(bits: seq<Byte>, p: nat)
    requires p < 8 * |bits|
  {
    BitAt(bits, p / 8, p % 8)
  }

  function SetBit(bits: seq<Byte>, p: nat): (r: seq<Byte>)
    requires p < 8 * |bits|
    ensures |r| == |bits|
  {
    SetAt(bits, p / 8, p % 8)
  }

  /** Sets probes `i..hashes` of `key`. */
  function AddProbes(bits: seq<Byte>, numBits: nat, hashes: nat, key: Str, i: nat): (r: seq<Byte>)
    requires 0 < numBits <= 8 * |bits|
    ensures |r| == |bits|
    decreases hashes - i, |bits|
  {
    if i >= hashes then bits else AddProbes(SetBit(bits, Position(key, i, numBits)), numBits, hashes, key, i + 1)
  }

  function AddAll(bits: seq<Byte>, numBits: nat, hashes: nat, keys: seq<Str>): (r: seq<Byte>)
    requires 0 < numBits <= 8 * |bits|
    ensures |r| == |bits|
    decreases |keys|
  {
    if keys == [] then bits else AddAll(AddProbes(bits, numBits, hashes, keys[0], 0), numBits, hashes, keys[1..])
  }

  /** Bytes of a filter for `n` keys: 10 bits a key, at least 64 bits, rounded up to a byte. */
  function NumBytes(n: nat): (r: nat)
    ensures r >= 8
  {
    ((if n * BITS_PER_KEY > 64 then n * BITS_PER_KEY else 64) + 7) / 8
  }

  /** At least 64 bits and at least 10 a key, and not a byte more than that takes. */
  lemma FilterSize(n: nat)
    ensures 64 <= 8 * NumBytes(n) && 10 * n <= 8 * NumBytes(n)
    ensures 8 * (NumBytes(n) - 1) < 64 || 8 * (NumBytes(n) - 1) < 10 * n
  {
  }

  /** Published FNV-1a values: of nothing, of "a" and of "foobar". */
  lemma HashValues()
    ensures HashKey([], 0) == 0x811C9DC5 && HashKey([97], 0) == 0xE40C292C
    ensures HashKey([102, 111, 111, 98, 97, 114], 0) == 0xBF9CF968
  {
    HashStep(0x811C9DC5, [97]);
    HashStep(0x811C9DC5, [102, 111, 111, 98, 97, 114]);
    HashStep(0xE30C2799, [111, 111, 98, 97, 114]);
    HashStep(0x6222E842, [111, 98, 97, 114]);
    HashStep(0xA9F37ED7, [98, 97, 114]);
    HashStep(0x3F5076EF, [97, 114]);
    HashStep(0x39AAA18A, [114]);
  }

  /** The probes of "a" in a filter of 1000 bits. */
  lemma ProbeValues()
    ensures Position([97], 0, 1000) == 904 && Position([97], 1, 1000) == 984 && Position([97], 6, 1000) == 792
  {
    HashStep(0x811C9DC5 ^ 0xbc9f1d34, [97]);
    HashStep(0x811C9DC5 ^ 0x9747b28c, [97]);
    assert HashKey([97], 0xbc9f1d34) == 0x660362B0 && HashKey([97], 0x9747b28c) == 0x598B3BF8;
    hide HashKey;
  }

  /** Bit `p` is bit `p % 8` of byte `p / 8`, the lowest first. */
  lemma BitIs(bits: seq<Byte>, p: nat)
    requires p < 8 * |bits|
    ensures BitSet(bits, p) <==> (bits[p / 8] >> (p % 8)) & 1 == 1
  {
    ShiftedBit(bits[p / 8], p % 8);
  }

  lemma ShiftedBit(b: Byte, j: nat)
    requires j < 8
    ensures b & Mask(j) != 0 <==> (b >> j) & 1 == 1
  {
    assert j in {0, 1, 2, 3, 4, 5, 6, 7};
  }

  lemma HashStep(hash: bv32, key: Str)
    requires key != []
    ensures HashFrom(key, hash) == HashFrom(key[1..], (hash ^ (key[0] as bv32)) * 16777619)
  {
  }

  /** `hashes` probes of `key` all hit. */
  ghost predicate Hits(bits: seq<Byte>, numBits: nat, hashes: nat, key: Str)
    requires 0 < numBits <= 8 * |bits|
  {
    forall i :: 0 <= i < hashes ==> BitSet(bits, Position(key, i, numBits))
  }

  class BloomFilter {
    var bits: seq<Byte>
    const numBits: nat
    const numHashes: nat

    constructor (expectedKeys: nat)
      ensures numBits == 8 * NumBytes(expectedKeys) && numHashes == NUM_HASHES
      ensures bits == seq(NumBytes(expectedKeys), _ => 0)
    {
      var total := expectedKeys * BITS_PER_KEY;
      var wanted := if total > 64 then total else 64;
      var numBytes := (wanted + 7) / 8;
      bits := seq(numBytes, _ => 0);
      numBits := numBytes * 8;
      numHashes := NUM_HASHES;
    }

    /** From the bytes of a file: nothing is checked. */
    constructor FromRaw(bits: seq<Byte>, numBits: nat, numHashes: nat)
      ensures this.bits == bits && this.numBits == numBits && this.numHashes == numHashes
    {
      this.bits, this.numBits, this.numHashes := bits, numBits, numHashes;
    }

    method Add(key: Str)
      requires 0 < numBits <= 8 * |bits|
      modifies this
      ensures bits == AddProbes(old(bits), numBits, numHashes, key, 0)
    {
      var i := 0;
      while i < numHashes
        invariant i <= numHashes && |bits| == |old(bits)|
        invariant AddProbes(bits, numBits, numHashes, key, i) == AddProbes(old(bits), numBits, numHashes, key, 0)
      {
        var p := Position(key, i, numBits);
        bits := SetBit(bits, p);
        i := i + 1;
      }
    }

    method MayContain(key: Str) returns (hit: bool)
      requires 0 < numBits <= 8 * |bits|
      ensures hit <==> Hits(bits, numBits, numHashes, key)
    {
      var i := 0;
      while i < numHashes
        invariant i <= numHashes && Hits(bits, numBits, i, key)
      {
        var p := Position(key, i, numBits);
        if !BitSet(bits, p) {
          return false;
        }
        i := i + 1;
      }
      hit := true;
    }
  }

  // ---- exactness: a bit is set if and only if some added key probes it ----

  lemma MaskBits(b: bv8, j: nat, l: nat)
    requires j < 8 && l < 8
    ensures (b | Mask(j)) & Mask(l) != 0 <==> j == l || b & Mask(l) != 0
  {
  }

  lemma OrExact(bits: seq<Byte>, i: nat, j: nat, k: nat, l: nat)
    requires i < |bits| && k < |bits| && j < 8 && l < 8
    ensures BitAt(SetAt(bits, i, j), k, l) <==> (i == k && j == l) || BitAt(bits, k, l)
  {
    hide Mask;
    MaskBits(bits[i], j, l);
  }

  lemma ByteAndBit(p: nat, q: nat)
    ensures p == q <==> p / 8 == q / 8 && p % 8 == q % 8
  {
    assert p == 8 * (p / 8) + p % 8 && q == 8 * (q / 8) + q % 8;
  }

  lemma SetBitExact(bits: seq<Byte>, p: nat, q: nat)
    requires p < 8 * |bits| && q < 8 * |bits|
    ensures BitSet(SetBit(bits, p), q) <==> p == q || BitSet(bits, q)
  {
    hide BitAt, SetAt, Mask;
    ByteAndBit(p, q);
    OrExact(bits, p / 8, p % 8, q / 8, q % 8);
  }

  ghost predicate Probes(key: Str, q: nat, lo: nat, numBits: nat, hashes: nat)
    requires numBits > 0
  {
    exists i :: lo <= i < hashes && Position(key, i, numBits) == q
  }

  lemma {:induction false} AddProbesExact(bits: seq<Byte>, numBits: nat, hashes: nat, key: Str, i: nat, q: nat)
    requires 0 < numBits <= 8 * |bits| && q < 8 * |bits|
    ensures BitSet(AddProbes(bits, numBits, hashes, key, i), q)
       <==> Probes(key, q, i, numBits, hashes) || BitSet(bits, q)
    decreases hashes - i
  {
    hide BitSet, SetBit, Position;
    if i < hashes {
      var p := Position(key, i, numBits);
      SetBitExact(bits, p, q);
      AddProbesExact(SetBit(bits, p), numBits, hashes, key, i + 1, q);
    }
  }

  lemma {:induction false} AddAllExact(bits: seq<Byte>, numBits: nat, hashes: nat, keys: seq<Str>, q: nat)
    requires 0 < numBits <= 8 * |bits| && q < 8 * |bits|
    ensures BitSet(AddAll(bits, numBits, hashes, keys), q)
       <==> BitSet(bits, q) || exists n :: 0 <= n < |keys| && Probes(keys[n], q, 0, numBits, hashes)
    decreases |keys|
  {
    hide BitSet, Position, Probes, AddProbes;
    if keys != [] {
      AddProbesExact(bits, numBits, hashes, keys[0], 0, q);
      AddAllExact(AddProbes(bits, numBits, hashes, keys[0], 0), numBits, hashes, keys[1..], q);
      if exists n :: 0 <= n < |keys| && Probes(keys[n], q, 0, numBits, hashes) {
        var n :| 0 <= n < |keys| && Probes(keys[n], q, 0, numBits, hashes);
        assert n > 0 ==> keys[1..][n - 1] == keys[n];
      }
    }
  }

  /** No false negatives: every added key hits. */
  lemma AddedKeysHit(bits: seq<Byte>, numBits: nat, hashes: nat, keys: seq<Str>, n: nat)
    requires 0 < numBits <= 8 * |bits| && n < |keys|
    ensures Hits(AddAll(bits, numBits, hashes, keys), numBits, hashes, keys[n])
  {
    hide BitSet, Position;
    forall i | 0 <= i < hashes ensures BitSet(AddAll(bits, numBits, hashes, keys), Position(keys[n], i, numBits)) {
      AddAllExact(bits, numBits, hashes, keys, Position(keys[n], i, numBits));
      assert Probes(keys[n], Position(keys[n], i, numBits), 0, numBits, hashes);
    }
  }
}
