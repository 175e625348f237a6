/** File names of SSTables: flushed ones (src/storage/engine/storage_engine.cpp:277-278) and compaction
    outputs (src/storage/compaction/compaction_manager.cpp:148-154). */
module Paths {
  import opened Bytes

  const DIGITS: Str := [48, 49, 50, 51, 52, 53, 54, 55, 56, 57]
  const SLASH_LEVEL: Str := [47, 108, 101, 118, 101, 108]  // "/level"
  const UNDERSCORE: Str := [95]
  const DOT_SST: Str := [46, 115, 115, 116]  // ".sst"

  /** `std::to_string`. */
  function Decimal(n: nat): (s: Str)
    ensures |s| > 0 && forall i :: 0 <= i < |s| ==> s[i] in DIGITS
  {
    if n < 10 then [DIGITS[n]] else Decimal(n / 10) + [DIGITS[n % 10]]
  }

  function Zeros(n: nat): (s: Str)
    ensures |s| == n && forall i :: 0 <= i < |s| ==> s[i] == 48
  {
    seq(n, _ => 48)
  }

  /** `std::setw(8) << std::setfill('0')`: padded on the left, never cut. */
  function Padded(n: nat): (s: Str)
    ensures forall i :: 0 <= i < |s| ==> s[i] in DIGITS
  {
    var d := Decimal(n);
    if |d| < 8 then Zeros(8 - |d|) + d else d
  }

  function OutputPath(dir: Str, level: nat, number: nat): Str {
    Named(dir, Decimal(level), Padded(number))
  }

  function FlushPath(dir: Str, seqno: nat): Str {
    Named(dir, Decimal(0), Decimal(seqno))
  }

  function Named(dir: Str, level: Str, number: Str): Str {
    dir + SLASH_LEVEL + level + UNDERSCORE + number + DOT_SST
  }

  // ---- names tell files apart ----

  function DigitValue(b: Byte): nat {
    if b == 49 then 1 else if b == 50 then 2 else if b == 51 then 3 else if b == 52 then 4 else if b == 53 then 5
    else if b == 54 then 6 else if b == 55 then 7 else if b == 56 then 8 else if b == 57 then 9 else 0
  }

  function NumberOf(s: Str): nat {
    if s == [] then 0 else 10 * NumberOf(s[..|s| - 1]) + DigitValue(s[|s| - 1])
  }

  lemma {:induction false} NumberOfDecimal(n: nat)
    ensures NumberOf(Decimal(n)) == n
  {
    assert forall d :: 0 <= d < 10 ==> DigitValue(DIGITS[d]) == d;
    if n < 10 {
      assert Decimal(n)[..0] == [];
    } else {
      NumberOfDecimal(n / 10);
      assert Decimal(n)[..|Decimal(n)| - 1] == Decimal(n / 10);
    }
  }

  lemma {:induction false} LeadingZeros(n: nat, s: Str)
    ensures NumberOf(Zeros(n) + s) == NumberOf(s)
  {
    if s == [] {
      assert Zeros(n) + s == Zeros(n);
      ZerosAreZero(n);
    } else {
      LeadingZeros(n, s[..|s| - 1]);
      assert (Zeros(n) + s)[..n + |s| - 1] == Zeros(n) + s[..|s| - 1];
    }
  }

  lemma {:induction false} ZerosAreZero(n: nat)
    ensures NumberOf(Zeros(n)) == 0
  {
    if n > 0 {
      ZerosAreZero(n - 1);
      assert Zeros(n)[..n - 1] == Zeros(n - 1);
    }
  }

  lemma NumberOfPadded(n: nat)
    ensures NumberOf(Padded(n)) == n
  {
    NumberOfDecimal(n);
    if |Decimal(n)| < 8 {
      LeadingZeros(8 - |Decimal(n)|, Decimal(n));
    }
  }

  /** The last underscore separates the number from what is before it. */
  lemma SameNumber(a: Str, d: Str, b: Str, e: Str)
    requires a + UNDERSCORE + d + DOT_SST == b + UNDERSCORE + e + DOT_SST
    requires (forall i :: 0 <= i < |d| ==> d[i] in DIGITS) && forall i :: 0 <= i < |e| ==> e[i] in DIGITS
    ensures a == b && d == e
  {
    var s, t := a + UNDERSCORE + d + DOT_SST, b + UNDERSCORE + e + DOT_SST;
    assert s[|a|] == 95 && t[|b|] == 95;
    forall i | |a| < i < |s| - 4 ensures s[i] != 95 {
      assert s[i] == d[i - |a| - 1] && s[i] in DIGITS;
    }
    forall i | |b| < i < |t| - 4 ensures t[i] != 95 {
      assert t[i] == e[i - |b| - 1] && t[i] in DIGITS;
    }
    assert |a| == |b|;
    assert s[..|a|] == a && t[..|b|] == b;
    assert s[|a| + 1..|s| - 4] == d && t[|b| + 1..|t| - 4] == e;
  }

  /** Output names differ by number alone, whatever the level. */
  lemma OutputPathsDiffer(dir: Str, level: nat, number: nat, level': nat, number': nat)
    requires OutputPath(dir, level, number) == OutputPath(dir, level', number')
    ensures number == number'
  {
    SameNumber(dir + SLASH_LEVEL + Decimal(level), Padded(number), dir + SLASH_LEVEL + Decimal(level'),
        Padded(number'));
    NumberOfPadded(number);
    NumberOfPadded(number');
  }

  lemma FlushPathsDiffer(dir: Str, seqno: nat, seqno': nat)
    requires FlushPath(dir, seqno) == FlushPath(dir, seqno')
    ensures seqno == seqno'
  {
    SameNumber(dir + SLASH_LEVEL + Decimal(0), Decimal(seqno), dir + SLASH_LEVEL + Decimal(0), Decimal(seqno'));
    NumberOfDecimal(seqno);
    NumberOfDecimal(seqno');
  }

  /** A flushed file's name is never that of an output at level 1 or deeper. */
  lemma FlushPathIsNoOutput(dir: Str, seqno: nat, level: nat, number: nat)
    requires FlushPath(dir, seqno) == OutputPath(dir, level, number)
    ensures level == 0
  {
    var a, b := dir + SLASH_LEVEL + Decimal(0), dir + SLASH_LEVEL + Decimal(level);
    SameNumber(a, Decimal(seqno), b, Padded(number));
    assert a[|dir + SLASH_LEVEL|..] == Decimal(0) && b[|dir + SLASH_LEVEL|..] == Decimal(level);
    NumberOfDecimal(0);
    NumberOfDecimal(level);
  }
}
