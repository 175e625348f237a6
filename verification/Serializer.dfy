/** Fixed little-endian integers and length-prefixed strings
    (src/common/serialization/binary_serializer.cpp). Writers append to a buffer;
    readers take an offset and return the value with the offset after it. */
module Serializer {
  import opened Common
  import opened Bytes

  const U32_LIMIT: nat := 0x1_0000_0000
  const U64_LIMIT: nat := 0x1_0000_0000_0000_0000

  type U32 = n: nat | n < U32_LIMIT
  type U64 = n: nat | n < U64_LIMIT

  /** The `k` low bytes of `n`, least significant first; higher bytes are cut off, as by a C++ cast. */
  function LittleEndian(n: nat, k: nat): (r: seq<Byte>)
    ensures |r| == k
  {
    if k == 0 then [] else [ByteOf(n % 256)] + LittleEndian(n / 256, k - 1)
  }

  function Value(s: seq<Byte>): nat {
    if s == [] then 0 else s[0] as int + 256 * Value(s[1..])
  }

  function WriteUint32(n: nat): (r: seq<Byte>)
    ensures |r| == 4
  {
    LittleEndian(n, 4)
  }

  function WriteUint64(n: nat): (r: seq<Byte>)
    ensures |r| == 8
  {
    LittleEndian(n, 8)
  }

  function WriteString(s: Str): (r: seq<Byte>)
    ensures |r| == 4 + |s|
  {
    WriteUint32(|s|) + s
  }

  function ReadUint(buffer: seq<Byte>, offset: nat, k: nat): Result<(nat, nat)> {
    if offset + k > |buffer| then Err(Corruption)
    else Ok((Value(buffer[offset..offset + k]), offset + k))
  }

  function ReadUint32(buffer: seq<Byte>, offset: nat): Result<(nat, nat)> {
    ReadUint(buffer, offset, 4)
  }

  function ReadUint64(buffer: seq<Byte>, offset: nat): Result<(nat, nat)> {
    ReadUint(buffer, offset, 8)
  }

  /** `length` raw bytes, bounds checked. */
  function ReadRaw(buffer: seq<Byte>, offset: nat, length: nat): Result<(seq<Byte>, nat)> {
    if offset + length > |buffer| then Err(Corruption)
    else Ok((buffer[offset..offset + length], offset + length))
  }

  function ReadString(buffer: seq<Byte>, offset: nat): Result<(Str, nat)> {
    var (length, next) :- ReadUint32(buffer, offset);
    ReadRaw(buffer, next, length)
  }

  // ---- what a reader finds at an offset ----

  /** `piece` stands at `offset` of `buffer`. */
  predicate At(buffer: seq<Byte>, offset: nat, piece: seq<Byte>) {
    offset + |piece| <= |buffer| && buffer[offset..offset + |piece|] == piece
  }

  lemma AtSplit(buffer: seq<Byte>, offset: nat, a: seq<Byte>, b: seq<Byte>)
    ensures At(buffer, offset, a + b) <==> At(buffer, offset, a) && At(buffer, offset + |a|, b)
  {
    if At(buffer, offset, a + b) {
      assert buffer[offset..offset + |a|] == (a + b)[..|a|] == a;
      assert buffer[offset + |a|..offset + |a| + |b|] == (a + b)[|a|..] == b;
    }
    if At(buffer, offset, a) && At(buffer, offset + |a|, b) {
      assert buffer[offset..offset + |a + b|]
          == buffer[offset..offset + |a|] + buffer[offset + |a|..offset + |a| + |b|];
    }
  }

  lemma AtPrefix(buffer: seq<Byte>, offset: nat, piece: seq<Byte>, after: seq<Byte>)
    requires At(buffer, offset, piece)
    ensures At(buffer + after, offset, piece)
  {
    assert (buffer + after)[offset..offset + |piece|] == buffer[offset..offset + |piece|];
  }

  lemma AtEnd(before: seq<Byte>, piece: seq<Byte>)
    ensures At(before + piece, |before|, piece)
  {
  }

  function Pow(base: nat, n: nat): nat {
    if n == 0 then 1 else base * Pow(base, n - 1)
  }

  lemma {:induction false} PowPositive(base: nat, n: nat)
    requires base > 0
    ensures Pow(base, n) > 0
  {
    if n > 0 {
      PowPositive(base, n - 1);
    }
  }

  /** Byte `i` is the `i`-th digit of the number to base 256. */
  lemma {:induction false} LittleEndianAt(n: nat, k: nat, i: nat)
    requires i < k
    ensures Pow(256, i) > 0 && LittleEndian(n, k)[i] as int == n / Pow(256, i) % 256
  {
    PowPositive(256, i);
    if i > 0 {
      LittleEndianAt(n / 256, k - 1, i - 1);
      DivideTwice(n, Pow(256, i - 1));
    }
  }

  lemma DivideTwice(n: nat, p: nat)
    requires p > 0
    ensures n / 256 / p == n / (256 * p)
  {
    var q, r := n / 256 / p, n / 256 % p;
    assert n == 256 * (q * p + r) + n % 256 && 256 * r + n % 256 < 256 * p;
    QuotientIs(n, 256 * p, q, 256 * r + n % 256);
  }

  lemma QuotientIs(n: nat, d: nat, q: nat, r: nat)
    requires d > 0 && n == q * d + r && r < d
    ensures n / d == q
  {
    assert n == n / d * d + n % d;
    assert (n / d - q) * d == r - n % d;
    if n / d > q {
      AtLeast(n / d - q, d);
    } else if n / d < q {
      assert (q - n / d) * d == n % d - r;
      AtLeast(q - n / d, d);
    }
  }

  lemma AtLeast(times: int, d: nat)
    requires times >= 1
    ensures times * d >= d
  {
  }

  lemma {:induction false} ValueOfLittleEndian(n: nat, k: nat)
    requires n < Pow(256, k)
    ensures Value(LittleEndian(n, k)) == n
  {
    if k > 0 {
      ValueOfLittleEndian(n / 256, k - 1);
      assert LittleEndian(n, k)[1..] == LittleEndian(n / 256, k - 1);
    }
  }

  lemma {:induction false} LittleEndianOfValue(s: seq<Byte>)
    ensures Value(s) < Pow(256, |s|)
    ensures LittleEndian(Value(s), |s|) == s
  {
    if s != [] {
      LittleEndianOfValue(s[1..]);
      assert s[0] as int < 256;
      assert Value(s) % 256 == s[0] as int && Value(s) / 256 == Value(s[1..]);
      assert s == [s[0]] + s[1..];
    }
  }

  lemma ReadsUint32(buffer: seq<Byte>, offset: nat, n: nat)
    requires n < U32_LIMIT && At(buffer, offset, WriteUint32(n))
    ensures ReadUint32(buffer, offset) == Ok((n, offset + 4))
  {
    assert Pow(256, 4) == U32_LIMIT;
    ValueOfLittleEndian(n, 4);
  }

  lemma ReadsUint64(buffer: seq<Byte>, offset: nat, n: nat)
    requires n < U64_LIMIT && At(buffer, offset, WriteUint64(n))
    ensures ReadUint64(buffer, offset) == Ok((n, offset + 8))
  {
    assert Pow(256, 8) == U64_LIMIT;
    ValueOfLittleEndian(n, 8);
  }

  /** Reading a string that was written at `offset` gives it back. */
  lemma ReadsString(buffer: seq<Byte>, offset: nat, s: Str)
    requires |s| < U32_LIMIT && At(buffer, offset, WriteString(s))
    ensures ReadString(buffer, offset) == Ok((s, offset + 4 + |s|))
  {
    AtSplit(buffer, offset, WriteUint32(|s|), s);
    ReadsUint32(buffer, offset, |s|);
  }
}
