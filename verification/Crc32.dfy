/** The WAL checksum (src/storage/wal/wal.cpp:26-50): a table-driven CRC-32, and what it detects. */
module Crc32s {
  import opened Bytes

  const POLYNOMIAL: bv32 := 0xEDB88320

  function Xor(a: bv32, b: bv32): bv32 { a ^ b }

  function Half(c: bv32): bv32 { c >> 1 }

  predicate Odd(c: bv32) { c & 1 == 1 }

  function Wide(b: Byte): bv32 { b as bv32 }

  function LowByte(c: bv32): bv32 { c & 0xFF }

  /** One step of the division by the reflected polynomial. */
  function Shift(c: bv32): bv32 {
    Xor(Half(c), if Odd(c) then POLYNOMIAL else 0)
  }

  function Shifts(c: bv32, n: nat): bv32
    decreases n, c
  {
    if n == 0 then c else Shifts(Shift(c), n - 1)
  }

  function LowBit(b: Byte): bv32 { if Odd(Wide(b)) then 1 else 0 }

  function HalfByte(b: Byte): Byte { b >> 1 }

  /** The serial form: message bits enter one at a time, least significant first. */
  function SerialByte(c: bv32, b: Byte, bits: nat): bv32
    decreases bits, c
  {
    if bits == 0 then c else SerialByte(Shift(Xor(c, LowBit(b))), HalfByte(b), bits - 1)
  }

  function Serial(c: bv32, data: seq<Byte>): bv32
    decreases |data|
  {
    if data == [] then c else Serial(SerialByte(c, data[0], 8), data[1..])
  }

  /** CRC-32 as section 8 of RFC 1952 defines it, bit by bit. */
  function Crc32(data: seq<Byte>): bv32 {
    Xor(Serial(0xFFFF_FFFF, data), 0xFFFF_FFFF)
  }

  // ---- the table form ----

  function EntryOf(i: nat): bv32
    requires i < 256
  {
    Shifts(i as bv32, 8)
  }

  function TableIndex(crc: bv32, b: Byte): (i: nat)
    ensures i < 256
  {
    IndexRoundTrip((crc ^ (b as bv32)) & 0xFF);
    ((crc ^ (b as bv32)) & 0xFF) as int
  }

  function TableNext(crc: bv32, entry: bv32): bv32 {
    (crc >> 8) ^ entry
  }

  /** `InitCRC32Table`. */
  method InitTable() returns (table: seq<bv32>)
    ensures |table| == 256 && forall i :: 0 <= i < 256 ==> table[i] == EntryOf(i)
  {
    table := [];
    var i := 0;
    while i < 256
      invariant 0 <= i <= 256 && |table| == i && forall n :: 0 <= n < i ==> table[n] == EntryOf(n)
    {
      var crc := TableEntry(i as bv32);
      table := table + [crc];
      i := i + 1;
    }
  }

  method TableEntry(start: bv32) returns (crc: bv32)
    ensures crc == Shifts(start, 8)
  {
    hide Xor, Half, Odd, Shifts;
    crc := start;
    var j := 0;
    while j < 8
      invariant 0 <= j <= 8 && Shifts(crc, 8 - j) == Shifts(start, 8)
    {
      ShiftsStep(crc, 8 - j);
      crc := Xor(Half(crc), if Odd(crc) then POLYNOMIAL else 0);
      j := j + 1;
    }
    ShiftsStep(crc, 0);
  }

  lemma ShiftsStep(c: bv32, n: nat)
    ensures Shifts(c, n) == if n == 0 then c else Shifts(Shift(c), n - 1)
  {
    hide Shift;
  }

  /** `ComputeCRC32`: one table access a byte. */
  method ComputeCrc32(data: seq<Byte>) returns (crc: bv32)
    ensures crc == Crc32(data)
  {
    hide Serial, Shifts, Xor, TableIndex, TableNext, EntryOf;
    var table := InitTable();
    crc := 0xFFFF_FFFF;
    var i := 0;
    while i < |data|
      invariant 0 <= i <= |data| && Serial(crc, data[i..]) == Serial(0xFFFF_FFFF, data)
    {
      TableStep(crc, data[i..]);
      crc := TableNext(crc, table[TableIndex(crc, data[i])]);
      assert data[i..][1..] == data[i + 1..];
      i := i + 1;
    }
    NoMoreData(crc, data[i..]);
    crc := Xor(crc, 0xFFFF_FFFF);
  }

  lemma NoMoreData(c: bv32, data: seq<Byte>)
    requires data == []
    ensures Serial(c, data) == c
  {
  }

  // ---- facts about single operations ----

  lemma XorZero(a: bv32)
    ensures Xor(a, 0) == a && Xor(0, a) == a
  {
  }

  lemma XorComm(a: bv32, b: bv32)
    ensures Xor(a, b) == Xor(b, a)
  {
  }

  lemma XorAssoc(a: bv32, b: bv32, c: bv32)
    ensures Xor(Xor(a, b), c) == Xor(a, Xor(b, c))
  {
  }

  lemma XorUndo(a: bv32, p: bv32)
    ensures Xor(Xor(a, p), p) == a
  {
  }

  lemma XorSwap(a: bv32, b: bv32, c: bv32)
    ensures Xor(Xor(a, b), c) == Xor(Xor(a, c), b)
  {
    hide Xor;
    XorAssoc(a, b, c);
    XorComm(b, c);
    XorAssoc(a, c, b);
  }

  lemma XorTwice(a: bv32, b: bv32, p: bv32)
    ensures Xor(Xor(a, p), Xor(b, p)) == Xor(a, b)
  {
    hide Xor;
    XorAssoc(Xor(a, p), b, p);
    XorSwap(a, p, b);
    XorUndo(Xor(a, b), p);
  }

  lemma XorCancels(a: bv32, b: bv32, p: bv32)
    requires Xor(a, p) == Xor(b, p)
    ensures a == b
  {
  }

  lemma XorCancelsLeft(p: bv32, a: bv32, b: bv32)
    requires Xor(p, a) == Xor(p, b)
    ensures a == b
  {
  }

  lemma HalfXor(a: bv32, b: bv32)
    ensures Half(Xor(a, b)) == Xor(Half(a), Half(b))
  {
  }

  lemma OddXor(a: bv32, b: bv32)
    ensures Odd(Xor(a, b)) <==> Odd(a) != Odd(b)
  {
  }

  lemma HalfWide(b: Byte)
    ensures Half(Wide(b)) == Wide(HalfByte(b))
  {
  }

  lemma BitFacts(b: Byte)
    ensures Half(LowBit(b)) == 0 && (Odd(LowBit(b)) <==> Odd(Wide(b)))
  {
  }

  // ---- linearity: why the table form is the serial form ----

  lemma ShiftXor(x: bv32, y: bv32)
    ensures Shift(Xor(x, y)) == Xor(Shift(x), Shift(y))
  {
    hide Xor, Half, Odd;
    var a, b := Half(x), Half(y);
    HalfXor(x, y);
    OddXor(x, y);
    XorZero(a);
    XorZero(b);
    XorZero(Xor(a, b));
    XorTwice(a, b, POLYNOMIAL);
    XorSwap(a, b, POLYNOMIAL);
    XorAssoc(a, b, POLYNOMIAL);
  }

  lemma ShiftInjective(x: bv32, y: bv32)
    requires Shift(x) == Shift(y)
    ensures x == y
  {
  }

  lemma {:induction false} ShiftsXor(x: bv32, y: bv32, n: nat)
    ensures Shifts(Xor(x, y), n) == Xor(Shifts(x, n), Shifts(y, n))
    decreases n
  {
    hide Shift, Xor;
    if n > 0 {
      ShiftXor(x, y);
      ShiftsXor(Shift(x), Shift(y), n - 1);
    }
  }

  lemma {:induction false} ShiftsInjective(x: bv32, y: bv32, n: nat)
    requires Shifts(x, n) == Shifts(y, n)
    ensures x == y
    decreases n
  {
    hide Shift;
    if n > 0 {
      ShiftsInjective(Shift(x), Shift(y), n - 1);
      ShiftInjective(x, y);
    }
  }

  /** A byte already in the register gives up its lowest bit and halves. */
  lemma BitEnters(c: bv32, b: Byte)
    ensures Shift(Xor(c, Wide(b))) == Xor(Shift(Xor(c, LowBit(b))), Wide(HalfByte(b)))
  {
    hide Xor, Half, Odd, Wide, LowBit, HalfByte;
    HalfXor(c, Wide(b));
    OddXor(c, Wide(b));
    HalfXor(c, LowBit(b));
    OddXor(c, LowBit(b));
    HalfWide(b);
    BitFacts(b);
    XorZero(Half(c));
    XorSwap(Half(c), Wide(HalfByte(b)), POLYNOMIAL);
    XorSwap(Half(c), Wide(HalfByte(b)), 0);
  }

  /** The bits of `b` from `n` up are zero. */
  predicate FitsIn(b: Byte, n: nat)
    decreases n, b
  {
    if n == 0 then b == 0 else FitsIn(HalfByte(b), n - 1)
  }

  lemma ByteFits(b: Byte)
    ensures FitsIn(b, 8)
  {
    var b1 := HalfByte(b);
    var b2 := HalfByte(b1);
    var b3 := HalfByte(b2);
    var b4 := HalfByte(b3);
    var b5 := HalfByte(b4);
    var b6 := HalfByte(b5);
    var b7 := HalfByte(b6);
    assert HalfByte(b7) == 0;
    hide HalfByte;
    assert FitsIn(HalfByte(b7), 0);
    assert FitsIn(b7, 1) && FitsIn(b6, 2) && FitsIn(b5, 3) && FitsIn(b4, 4) && FitsIn(b3, 5) && FitsIn(b2, 6)
        && FitsIn(b1, 7);
  }

  /** Feeding a byte bit by bit is feeding it at once and shifting. */
  lemma {:induction false} BitsAtOnce(c: bv32, b: Byte, n: nat)
    requires FitsIn(b, n)
    ensures SerialByte(c, b, n) == Shifts(Xor(c, Wide(b)), n)
    decreases n
  {
    if n > 0 {
      hide Shift, Xor, Wide, LowBit, HalfByte;
      BitEnters(c, b);
      BitsAtOnce(Shift(Xor(c, LowBit(b))), HalfByte(b), n - 1);
    } else {
      assert Wide(b) == 0;
      XorZero(c);
    }
  }

  lemma ByteAtOnce(c: bv32, b: Byte)
    ensures SerialByte(c, b, 8) == Shifts(Xor(c, Wide(b)), 8)
  {
    hide Shift, Xor, Wide, SerialByte, Shifts;
    ByteFits(b);
    BitsAtOnce(c, b, 8);
  }

  lemma EvenShift(c: bv32)
    requires !Odd(c)
    ensures Shift(c) == Half(c)
  {
    XorZero(Half(c));
  }

  /** Bits above the low byte only move. */
  lemma HighBitsMove(w: bv32)
    requires LowByte(w) == 0
    ensures Shifts(w, 8) == w >> 8
  {
    var w1 := Half(w);
    var w2 := Half(w1);
    var w3 := Half(w2);
    var w4 := Half(w3);
    var w5 := Half(w4);
    var w6 := Half(w5);
    var w7 := Half(w6);
    assert Half(w7) == w >> 8;
    assert !Odd(w) && !Odd(w1) && !Odd(w2) && !Odd(w3) && !Odd(w4) && !Odd(w5) && !Odd(w6) && !Odd(w7);
    hide Shift, Half, Odd, LowByte;
    EvenShift(w);
    EvenShift(w1);
    EvenShift(w2);
    EvenShift(w3);
    EvenShift(w4);
    EvenShift(w5);
    EvenShift(w6);
    EvenShift(w7);
    assert Shifts(w, 8) == Shifts(w1, 7) == Shifts(w2, 6) == Shifts(w3, 5) == Shifts(w4, 4);
    assert Shifts(w4, 4) == Shifts(w5, 3) == Shifts(w6, 2) == Shifts(w7, 1) == Shifts(Half(w7), 0);
  }

  lemma SplitLowByte(x: bv32)
    ensures x == Xor(x & 0xFFFF_FF00, LowByte(x)) && LowByte(x & 0xFFFF_FF00) == 0 && (x & 0xFFFF_FF00) >> 8 == x >> 8
  {
  }

  lemma IndexRoundTrip(y: bv32)
    requires y < 256
    ensures 0 <= y as int < 256 && (y as int) as bv32 == y
  {
  }

  lemma ByteIsLow(c: bv32, b: Byte)
    ensures Xor(c, Wide(b)) >> 8 == c >> 8
  {
  }

  lemma TableShift(x: bv32)
    ensures Shifts(x, 8) == Xor(x >> 8, Shifts(LowByte(x), 8))
  {
    hide Xor, LowByte, Shift;
    SplitLowByte(x);
    ShiftsXor(x & 0xFFFF_FF00, LowByte(x), 8);
    HighBitsMove(x & 0xFFFF_FF00);
  }

  lemma IndexIsLowByte(c: bv32, b: Byte)
    ensures EntryOf(TableIndex(c, b)) == Shifts(LowByte(Xor(c, Wide(b))), 8)
  {
    IndexRoundTrip((c ^ (b as bv32)) & 0xFF);
  }

  lemma NextIsXor(c: bv32, t: bv32)
    ensures TableNext(c, t) == Xor(c >> 8, t)
  {
  }

  lemma TableStep(c: bv32, data: seq<Byte>)
    requires data != []
    ensures Serial(TableNext(c, EntryOf(TableIndex(c, data[0]))), data[1..]) == Serial(c, data)
  {
    hide Xor, LowByte, Wide, Shifts, SerialByte, TableNext, EntryOf, TableIndex;
    var x := Xor(c, Wide(data[0]));
    ByteAtOnce(c, data[0]);
    TableShift(x);
    ByteIsLow(c, data[0]);
    IndexIsLowByte(c, data[0]);
    NextIsXor(c, Shifts(LowByte(x), 8));
  }

  // ---- the check value ----

  /** One step on the machine word. */
  function Step(c: bv32): bv32 {
    if c & 1 == 1 then (c >> 1) ^ 0xEDB8_8320 else c >> 1
  }

  function Eight(c: bv32): bv32 {
    Step(Step(Step(Step(Step(Step(Step(Step(c))))))))
  }

  function Next(c: bv32, b: Byte): bv32 {
    Eight(c ^ (b as bv32))
  }

  lemma ShiftIs(c: bv32)
    ensures Shift(c) == Step(c)
  {
    XorZero(Half(c));
    OddIs(c);
    hide Odd;
  }

  lemma OddIs(c: bv32)
    ensures Odd(c) <==> c & 1 == 1
  {
  }

  lemma EightShifts(x: bv32)
    ensures Shifts(x, 8) == Eight(x)
  {
    hide Shift, Step;
    var x1 := Shift(x);
    var x2 := Shift(x1);
    var x3 := Shift(x2);
    var x4 := Shift(x3);
    var x5 := Shift(x4);
    var x6 := Shift(x5);
    var x7 := Shift(x6);
    assert Shifts(x, 8) == Shifts(x1, 7) == Shifts(x2, 6) == Shifts(x3, 5) == Shifts(x4, 4);
    assert Shifts(x4, 4) == Shifts(x5, 3) == Shifts(x6, 2) == Shifts(x7, 1) == Shift(x7);
    ShiftIs(x);
    ShiftIs(x1);
    ShiftIs(x2);
    ShiftIs(x3);
    ShiftIs(x4);
    ShiftIs(x5);
    ShiftIs(x6);
    ShiftIs(x7);
  }

  lemma NextState(c: bv32, data: seq<Byte>, i: nat)
    requires i < |data|
    ensures Serial(c, data[i..]) == Serial(Next(c, data[i]), data[i + 1..])
  {
    hide SerialByte, Shifts, Eight;
    ByteAtOnce(c, data[i]);
    EightShifts(Xor(c, Wide(data[i])));
    assert data[i..][0] == data[i] && data[i..][1..] == data[i + 1..];
  }

  /** The published check value: the CRC-32 of "123456789". */
  lemma CheckValue()
    ensures Crc32([49, 50, 51, 52, 53, 54, 55, 56, 57]) == 0xCBF4_3926
  {
    hide Serial, Crc32, Shifts, Next;
    var digits: seq<Byte> := [49, 50, 51, 52, 53, 54, 55, 56, 57];
    CheckStates();
    NextState(0xFFFF_FFFF, digits, 0);
    NextState(0x7C23_1048, digits, 1);
    NextState(0xB0AC_BB32, digits, 2);
    NextState(0x77B7_9C2D, digits, 3);
    NextState(0x641C_1F5C, digits, 4);
    NextState(0x340A_C5E3, digits, 5);
    NextState(0xF68D_2C9E, digits, 6);
    NextState(0xAFFC_9660, digits, 7);
    NextState(0x651F_2550, digits, 8);
    NoMoreData(0x340B_C6D9, digits[9..]);
    assert digits[0..] == digits;
    CrcIs(digits);
  }

  lemma CrcIs(data: seq<Byte>)
    ensures Crc32(data) == Serial(0xFFFF_FFFF, data) ^ 0xFFFF_FFFF
  {
  }

  /** The states on the way. */
  lemma CheckStates()
    ensures Next(0xFFFF_FFFF, 49) == 0x7C23_1048 && Next(0x7C23_1048, 50) == 0xB0AC_BB32
    ensures Next(0xB0AC_BB32, 51) == 0x77B7_9C2D && Next(0x77B7_9C2D, 52) == 0x641C_1F5C
    ensures Next(0x641C_1F5C, 53) == 0x340A_C5E3 && Next(0x340A_C5E3, 54) == 0xF68D_2C9E
    ensures Next(0xF68D_2C9E, 55) == 0xAFFC_9660 && Next(0xAFFC_9660, 56) == 0x651F_2550
    ensures Next(0x651F_2550, 57) == 0x340B_C6D9
  {
  }

  // ---- what the checksum detects ----

  lemma {:induction false} SerialSplit(c: bv32, a: seq<Byte>, b: seq<Byte>)
    ensures Serial(c, a + b) == Serial(Serial(c, a), b)
    decreases |a|
  {
    hide SerialByte;
    if a == [] {
      assert a + b == b;
    } else {
      SerialSplit(SerialByte(c, a[0], 8), a[1..], b);
      assert (a + b)[1..] == a[1..] + b;
    }
  }

  /** For fixed data the state is never lost. */
  lemma {:induction false} SerialInjective(c: bv32, d: bv32, data: seq<Byte>)
    requires Serial(c, data) == Serial(d, data)
    ensures c == d
    decreases |data|
  {
    hide SerialByte, Shifts, Xor, Wide;
    if data != [] {
      var b := data[0];
      SerialInjective(SerialByte(c, b, 8), SerialByte(d, b, 8), data[1..]);
      ByteAtOnce(c, b);
      ByteAtOnce(d, b);
      ShiftsInjective(Xor(c, Wide(b)), Xor(d, Wide(b)), 8);
      XorCancels(c, d, Wide(b));
    }
  }

  /** A byte in front of a word. */
  function Prepend(b: Byte, w: bv32): bv32 { (b as bv32) | (w << 8) }

  /** Up to four bytes as the number they spell, first byte lowest. */
  function Word(u: seq<Byte>): bv32 {
    if u == [] then 0 else Prepend(u[0], Word(u[1..]))
  }

  /** A word of at most `n` bytes. */
  predicate Narrow(w: bv32, n: nat) {
    if n == 0 then w == 0
    else if n == 1 then w < 0x100
    else if n == 2 then w < 0x1_0000
    else if n == 3 then w < 0x100_0000
    else true
  }

  lemma PrependWidens(b: Byte, w: bv32, n: nat)
    requires Narrow(w, n)
    ensures Narrow(Prepend(b, w), n + 1)
  {
  }

  lemma {:induction false} WordNarrow(u: seq<Byte>)
    ensures Narrow(Word(u), |u|)
  {
    if u != [] {
      hide Prepend;
      WordNarrow(u[1..]);
      PrependWidens(u[0], Word(u[1..]), |u[1..]|);
    }
  }

  lemma NarrowFits(w: bv32, n: nat)
    requires n <= 3 && Narrow(w, n)
    ensures Narrow(w, 3)
  {
  }

  lemma PrependParts(c: bv32, b: Byte, w: bv32)
    requires Narrow(w, 3)
    ensures Xor(c, Prepend(b, w)) == Xor(Xor(c, Wide(b)), w << 8)
    ensures LowByte(w << 8) == 0 && (w << 8) >> 8 == w
  {
    OrIsXor(b, w);
    XorAssoc(c, Wide(b), w << 8);
    ShiftBack(w);
  }

  lemma OrIsXor(b: Byte, w: bv32)
    ensures (b as bv32) | (w << 8) == (b as bv32) ^ (w << 8)
  {
  }

  lemma ShiftBack(w: bv32)
    requires w < 0x100_0000
    ensures (w << 8) & 0xFF == 0 && (w << 8) >> 8 == w
  {
  }

  lemma PrependInjective(b: Byte, w: bv32, b': Byte, w': bv32)
    requires Narrow(w, 3) && Narrow(w', 3) && Prepend(b, w) == Prepend(b', w')
    ensures b == b' && w == w'
  {
  }

  lemma {:induction false} WordInjective(u: seq<Byte>, v: seq<Byte>)
    requires |u| == |v| <= 4 && Word(u) == Word(v)
    ensures u == v
  {
    if u != [] {
      hide Prepend, Narrow;
      WordNarrow(u[1..]);
      WordNarrow(v[1..]);
      NarrowFits(Word(u[1..]), |u[1..]|);
      NarrowFits(Word(v[1..]), |v[1..]|);
      PrependInjective(u[0], Word(u[1..]), v[0], Word(v[1..]));
      WordInjective(u[1..], v[1..]);
      assert u == [u[0]] + u[1..] && v == [v[0]] + v[1..];
    }
  }

  lemma {:induction false} ShiftsCompose(c: bv32, m: nat, n: nat)
    ensures Shifts(Shifts(c, m), n) == Shifts(c, m + n)
    decreases m
  {
    hide Shift;
    if m > 0 {
      ShiftsCompose(Shift(c), m - 1, n);
    }
  }

  /** Four bytes in a row act as one 32-bit word. */
  lemma {:induction false} WordAtOnce(c: bv32, u: seq<Byte>)
    requires |u| <= 4
    ensures Serial(c, u) == Shifts(Xor(c, Word(u)), 8 * |u|)
    decreases |u|
  {
    hide SerialByte, Shift, Xor, Wide, Prepend, Narrow, LowByte;
    if u == [] {
      XorZero(c);
    } else {
      hide Shifts;
      var b, w := u[0], Word(u[1..]);
      WordNarrow(u[1..]);
      NarrowFits(w, |u[1..]|);
      ByteAtOnce(c, b);
      WordAtOnce(Shifts(Xor(c, Wide(b)), 8), u[1..]);
      PrependParts(c, b, w);
      ShiftsXor(Xor(c, Wide(b)), w << 8, 8);
      HighBitsMove(w << 8);
      ShiftsCompose(Xor(c, Word(u)), 8, 8 * |u[1..]|);
    }
  }

  /** A change confined to four consecutive bytes always changes the checksum. */
  lemma BurstDetected(before: seq<Byte>, u: seq<Byte>, v: seq<Byte>, after: seq<Byte>)
    requires |u| == |v| <= 4 && u != v
    ensures Crc32(before + u + after) != Crc32(before + v + after)
  {
    hide Serial, Xor, Shifts, Word;
    if Crc32(before + u + after) == Crc32(before + v + after) {
      XorCancels(Serial(0xFFFF_FFFF, before + u + after), Serial(0xFFFF_FFFF, before + v + after), 0xFFFF_FFFF);
      SerialSplit(0xFFFF_FFFF, before + u, after);
      SerialSplit(0xFFFF_FFFF, before + v, after);
      SerialInjective(Serial(0xFFFF_FFFF, before + u), Serial(0xFFFF_FFFF, before + v), after);
      var c := Serial(0xFFFF_FFFF, before);
      SerialSplit(0xFFFF_FFFF, before, u);
      SerialSplit(0xFFFF_FFFF, before, v);
      WordAtOnce(c, u);
      WordAtOnce(c, v);
      ShiftsInjective(Xor(c, Word(u)), Xor(c, Word(v)), 8 * |u|);
      XorCancelsLeft(c, Word(u), Word(v));
      WordInjective(u, v);
    }
  }
}
