/** Byte strings and their order. `std::string` comparison is lexicographic on unsigned bytes. */
module Bytes {

  type Byte = bv8
  type Str = seq<Byte>

  /** `a < b` on `std::string`. */
  predicate Less(a: Str, b: Str) {
    if |b| == 0 then false
    else if |a| == 0 then true
    else if a[0] != b[0] then a[0] < b[0]
    else Less(a[1..], b[1..])
  }

  predicate AtMost(a: Str, b: Str) {
    !Less(b, a)
  }

  /** One string is a proper prefix of the other, or has the smaller byte, as a number, where they first differ. */
  lemma {:induction false} LessExactly(a: Str, b: Str)
    ensures Less(a, b) <==>
      a < b || exists i :: 0 <= i < |a| && i < |b| && a[..i] == b[..i] && a[i] as int < b[i] as int
  {
    if |a| > 0 && |b| > 0 {
      if a[0] == b[0] {
        LessExactly(a[1..], b[1..]);
        SamePrefix(a, b);
      } else {
        assert a[..0] == b[..0];
        AsNumbers(a[0], b[0]);
      }
    }
  }

  lemma AsNumbers(x: Byte, y: Byte)
    ensures x < y <==> x as int < y as int
  {
  }

  /** Where two strings with the same first byte differ, their rests do. */
  lemma SamePrefix(a: Str, b: Str)
    requires |a| > 0 && |b| > 0 && a[0] == b[0]
    ensures a < b <==> a[1..] < b[1..]
    ensures (exists i :: 0 <= i < |a| && i < |b| && a[..i] == b[..i] && a[i] as int < b[i] as int) <==>
      exists i :: 0 <= i < |a| - 1 && i < |b| - 1 && a[1..][..i] == b[1..][..i] && a[1..][i] as int < b[1..][i] as int
  {
    if i :| 0 <= i < |a| && i < |b| && a[..i] == b[..i] && a[i] as int < b[i] as int {
      var j := i - 1;
      assert a[1..][..j] == a[..i][1..] && b[1..][..j] == b[..i][1..];
      assert a[1..][j] == a[i] && b[1..][j] == b[i];
    }
    if i :| 0 <= i < |a| - 1 && i < |b| - 1 && a[1..][..i] == b[1..][..i] && a[1..][i] as int < b[1..][i] as int {
      assert a[..i + 1] == [a[0]] + a[1..][..i] && b[..i + 1] == [b[0]] + b[1..][..i];
      assert a[i + 1] == a[1..][i] && b[i + 1] == b[1..][i];
    }
  }

  lemma {:induction false} LessTrans(a: Str, b: Str, c: Str)
    requires Less(a, b) && Less(b, c)
    ensures Less(a, c)
  {
    if |a| > 0 && a[0] == b[0] && b[0] == c[0] {
      LessTrans(a[1..], b[1..], c[1..]);
    }
  }

  lemma {:induction false} LessTotal(a: Str, b: Str)
    ensures Less(a, b) || Less(b, a) || a == b
  {
    if |a| > 0 && |b| > 0 && a[0] == b[0] {
      LessTotal(a[1..], b[1..]);
      assert a == [a[0]] + a[1..] && b == [b[0]] + b[1..];
    }
  }

  lemma {:induction false} LessAsym(a: Str, b: Str)
    requires Less(a, b)
    ensures !Less(b, a) && a != b
  {
    if |a| > 0 && a[0] == b[0] {
      LessAsym(a[1..], b[1..]);
    }
  }

  /** `Less` is a strict total order with the empty string least, in quantified form. */
  lemma OrderFacts()
    ensures forall a, b, c :: Less(a, b) && Less(b, c) ==> Less(a, c)
    ensures forall a, b :: Less(a, b) || Less(b, a) || a == b
    ensures forall a, b :: Less(a, b) ==> !Less(b, a) && a != b
    ensures forall a: Str :: !Less(a, [])
    ensures forall a: Str :: a != [] ==> Less([], a)
  {
    forall a, b, c | Less(a, b) && Less(b, c) ensures Less(a, c) {
      LessTrans(a, b, c);
    }
    forall a, b ensures Less(a, b) || Less(b, a) || a == b {
      LessTotal(a, b);
    }
    forall a, b | Less(a, b) ensures !Less(b, a) && a != b {
      LessAsym(a, b);
    }
  }

  /** The byte of a value. */
  function ByteOf(x: nat): (b: Byte)
    requires x < 256
    ensures b as int == x
  {
    CastBack(Counted(x));
    x as Byte
  }

  ghost function Counted(x: nat): (b: Byte)
    requires x < 256
    ensures b as int == x
  {
    if x == 0 then 0 else Counted(x - 1) + 1
  }

  lemma CastBack(b: Byte)
    ensures (b as int) as Byte == b
  {
  }
}
