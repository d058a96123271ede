/** The CRC-32 of the ZIP writer: a table-driven loop over the bytes of each chunk. */
module Crc {
  import opened Bytes

  /** The reflected polynomial of section 8 of RFC 1952. */
  const POLYNOMIAL: bv32 := 0xEDB8_8320

  const ALL_ONES: bv32 := 0xFFFF_FFFF

  // The operations on a register, named so that proofs can treat them as wholes.

  function Xor(a: bv32, b: bv32): bv32
  {
    a ^ b
  }

  function Half(c: bv32): bv32
  {
    c >> 1
  }

  predicate Low(c: bv32)
  {
    c & 1 == 1
  }

  function LowByte(c: bv32): bv32
  {
    c & 0xFF
  }

  function HighBytes(c: bv32): bv32
  {
    c & 0xFFFF_FF00
  }

  function WithoutLowByte(c: bv32): bv32
  {
    c >> 8
  }

  /** One shift of the register: the low bit leaves and, when set, the polynomial is added. */
  function Shift(c: bv32): bv32
  {
    if Low(c) then Xor(POLYNOMIAL, Half(c)) else Half(c)
  }

  function Shifts(c: bv32, n: nat): bv32
    decreases n
  {
    if n == 0 then c else Shifts(Shift(c), n - 1)
  }

  function Word(b: byte): bv32
  {
    (b as bv8) as bv32
  }

  /** Entry `i` of the table: `i` shifted eight times. */
  function TableEntry(i: nat): bv32
    requires i < 256
  {
    Shifts(i as bv32, 8)
  }

  // ---- Reference: a serial register fed one message bit at a time ----

  function FeedBit(c: bv32, bit: bool): bv32
  {
    if Low(c) != bit then Xor(POLYNOMIAL, Half(c)) else Half(c)
  }

  /** Feeds the `n` low bits of `w`, least significant first. */
  function FeedBits(c: bv32, w: bv32, n: nat): bv32
    decreases n
  {
    if n == 0 then c else FeedBits(FeedBit(c, Low(w)), Half(w), n - 1)
  }

  /** The register after a message. */
  function Serial(c: bv32, message: bytes): bv32
    decreases |message|
  {
    if message == [] then c else Serial(FeedBits(c, Word(message[0]), 8), message[1..])
  }

  /** CRC-32 by definition: preset to ones, feed every bit, complement. */
  function Crc32Of(message: bytes): bv32
  {
    Xor(Serial(ALL_ONES, message), ALL_ONES)
  }

  // ---- Bit-vector facts ----

  function Poly(bit: bool): bv32
  {
    if bit then POLYNOMIAL else 0
  }

  lemma XorZero(a: bv32)
    ensures Xor(0, a) == Xor(a, 0) == a
  {
  }

  lemma XorSwap(p: bv32, q: bv32, x: bv32, y: bv32)
    ensures Xor(Xor(p, q), Xor(x, y)) == Xor(Xor(p, x), Xor(q, y))
  {
    hide Xor;
    XorAssociates(p, q, Xor(x, y));
    XorAssociates(q, x, y);
    XorCommutes(q, x);
    XorAssociates(x, q, y);
    XorAssociates(p, x, Xor(q, y));
  }

  lemma XorCommutes(a: bv32, b: bv32)
    ensures Xor(a, b) == Xor(b, a)
  {
  }

  lemma XorAssociates(a: bv32, b: bv32, c: bv32)
    ensures Xor(Xor(a, b), c) == Xor(a, Xor(b, c))
  {
  }

  lemma XorCancel(a: bv32, b: bv32, w: bv32)
    ensures Xor(a, w) == Xor(b, w) ==> a == b
    ensures Xor(w, a) == Xor(w, b) ==> a == b
  {
  }

  lemma LowXor(a: bv32, b: bv32)
    ensures Low(Xor(a, b)) <==> Low(a) != Low(b)
  {
    assert (a ^ b) & 1 == (a & 1) ^ (b & 1);
    assert a & 1 == 0 || a & 1 == 1;
    assert b & 1 == 0 || b & 1 == 1;
  }

  lemma HalfXor(a: bv32, b: bv32)
    ensures Half(Xor(a, b)) == Xor(Half(a), Half(b))
  {
  }

  lemma PolyXor(x: bool, y: bool)
    ensures Poly(x != y) == Xor(Poly(x), Poly(y))
  {
  }

  lemma ShiftForm(c: bv32)
    ensures Shift(c) == Xor(Poly(Low(c)), Half(c))
    ensures forall bit :: FeedBit(c, bit) == Xor(Poly(Low(c) != bit), Half(c))
  {
    hide Xor, Half, Low;
    XorZero(Half(c));
  }

  /** Halving eight times. */
  lemma Half8(w: bv32)
    ensures Drop(w, 8) == WithoutLowByte(w)
  {
    hide Half;
    var w2 := Half(Half(w));
    var w4 := Half(Half(w2));
    var w6 := Half(Half(w4));
    assert Drop(w, 8) == Drop(w2, 6);
    assert Drop(w2, 6) == Drop(w4, 4);
    assert Drop(w4, 4) == Drop(w6, 2) == Half(Half(w6));
    HalfTwice(w);
    HalfTwice(w2);
    HalfTwice(w4);
    HalfTwice(w6);
    ShiftRights(w);
  }

  lemma HalfTwice(w: bv32)
    ensures Half(Half(w)) == w >> 2
  {
  }

  lemma ShiftRights(w: bv32)
    ensures (((w >> 2) >> 2) >> 2) >> 2 == WithoutLowByte(w)
  {
  }

  /** `n` shifts without the polynomial. */
  function Drop(w: bv32, n: nat): bv32
    decreases n
  {
    if n == 0 then w else Drop(Half(w), n - 1)
  }

  /** The `n` low bits are zero. */
  predicate Clear(w: bv32, n: nat)
    decreases n
  {
    n == 0 || (!Low(w) && Clear(Half(w), n - 1))
  }

  lemma Clear8(w: bv32)
    requires LowByte(w) == 0
    ensures Clear(w, 8)
  {
    Clear4(w);
    var h := w >> 4;
    assert Half(Half(Half(Half(w)))) == h;
    assert h & 0xF == 0;
    Clear4(h);
    hide Low, Half;
    var w2 := Half(Half(w));
    var h2 := Half(Half(h));
    assert Clear(h, 4) && Clear(Half(Half(w2)), 4);
    assert Clear(w2, 6);
  }

  lemma Clear4(w: bv32)
    requires w & 0xF == 0
    ensures Clear(w, 4)
    ensures !Low(w) && !Low(Half(w)) && !Low(Half(Half(w))) && !Low(Half(Half(Half(w))))
  {
    assert !Low(w) && !Low(Half(w)) && !Low(Half(Half(w))) && !Low(Half(Half(Half(w))));
    hide Low, Half;
    assert Clear(Half(Half(w)), 2);
  }

  lemma Halves(x: bv32)
    ensures Xor(LowByte(x), HighBytes(x)) == x
    ensures LowByte(HighBytes(x)) == 0
  {
  }

  lemma ByteIsLow(c: bv32, b: bv8)
    ensures WithoutLowByte(HighBytes(Xor(c, b as bv32))) == WithoutLowByte(c)
    ensures WithoutLowByte(b as bv32) == 0
  {
  }

  lemma IntRoundTrip(x: bv32)
    ensures (x as int) as bv32 == x
  {
  }

  /** The byte an 8-bit word stands for. */
  function ByteOf(b: bv8): byte
  {
    b as int
  }

  lemma ByteOfRoundTrip(b: bv8)
    ensures ByteOf(b) as bv8 == b
  {
  }

  lemma WidenRoundTrip(b: bv8)
    ensures (b as bv32) as bv8 == b
  {
  }

  lemma WordOf(b: bv8)
    ensures Word(ByteOf(b)) == b as bv32
  {
    hide ByteOf;
    ByteOfRoundTrip(b);
  }

  lemma WordInjective(x: bv8, y: bv8)
    requires Word(ByteOf(x)) == Word(ByteOf(y))
    ensures x == y
  {
    hide *;
    WordOf(x);
    WordOf(y);
    WidenRoundTrip(x);
    WidenRoundTrip(y);
  }

  /** The polynomial's top bit marks the registers whose low bit left. */
  lemma TopBit(c: bv32)
    ensures Shift(c) >> 31 == 1 <==> Low(c)
  {
    assert (POLYNOMIAL ^ (c >> 1)) >> 31 == 1;
    assert (c >> 1) >> 31 == 0;
  }

  lemma SameHalves(a: bv32, b: bv32)
    requires Low(a) == Low(b) && Half(a) == Half(b)
    ensures a == b
  {
    assert a & 1 == 0 || a & 1 == 1;
    assert b & 1 == 0 || b & 1 == 1;
    assert a & 1 == b & 1;
    assert a == ((a >> 1) << 1) ^ (a & 1);
    assert b == ((b >> 1) << 1) ^ (b & 1);
  }

  // ---- The table step refines eight serial steps ----

  /** Shifting is linear over exclusive or. */
  lemma ShiftLinear(a: bv32, b: bv32)
    ensures Shift(Xor(a, b)) == Xor(Shift(a), Shift(b))
  {
    hide *;
    ShiftForm(a);
    ShiftForm(b);
    ShiftForm(Xor(a, b));
    LowXor(a, b);
    HalfXor(a, b);
    PolyXor(Low(a), Low(b));
    XorSwap(Poly(Low(a)), Poly(Low(b)), Half(a), Half(b));
  }

  lemma {:induction false} ShiftsLinear(a: bv32, b: bv32, n: nat)
    ensures Shifts(Xor(a, b), n) == Xor(Shifts(a, n), Shifts(b, n))
    decreases n
  {
    hide Xor, Shift;
    if n > 0 {
      ShiftLinear(a, b);
      ShiftsLinear(Shift(a), Shift(b), n - 1);
    }
  }

  /** Mixing a message bit into the register is shifting their sum. */
  lemma ShiftOfSum(c: bv32, w: bv32)
    ensures Shift(Xor(c, w)) == Xor(FeedBit(c, Low(w)), Half(w))
  {
    hide *;
    ShiftForm(c);
    ShiftForm(Xor(c, w));
    LowXor(c, w);
    HalfXor(c, w);
    XorAssociates(Poly(Low(c) != Low(w)), Half(c), Half(w));
  }

  lemma {:induction false} ShiftsOfSum(c: bv32, w: bv32, n: nat)
    ensures Shifts(Xor(c, w), n) == Xor(FeedBits(c, w, n), Drop(w, n))
    decreases n
  {
    hide Xor, Shift, FeedBit, Low, Half;
    if n > 0 {
      ShiftOfSum(c, w);
      ShiftsOfSum(FeedBit(c, Low(w)), Half(w), n - 1);
    }
  }

  lemma {:induction false} ShiftsOfClear(w: bv32, n: nat)
    requires Clear(w, n)
    ensures Shifts(w, n) == Drop(w, n)
    decreases n
  {
    hide Low, Half;
    if n > 0 {
      ShiftsOfClear(Half(w), n - 1);
    }
  }

  lemma ShiftsOfHigh(w: bv32)
    requires LowByte(w) == 0
    ensures Shifts(w, 8) == WithoutLowByte(w)
  {
    hide *;
    Clear8(w);
    ShiftsOfClear(w, 8);
    Half8(w);
  }

  lemma FeedIsShifts(c: bv32, b: byte)
    ensures FeedBits(c, Word(b), 8) == Shifts(Xor(c, Word(b)), 8)
  {
    hide Xor, Shifts, FeedBits, Drop, WithoutLowByte;
    ShiftsOfSum(c, Word(b), 8);
    Half8(Word(b));
    ByteIsLow(c, b as bv8);
    XorZero(FeedBits(c, Word(b), 8));
  }

  /** The table's index: the low byte of register and message byte mixed. */
  function Index(c: bv32, b: byte): (i: nat)
    ensures i < 256
  {
    LowByte(Xor(c, Word(b))) as int
  }

  lemma TableStepOfHalves(x: bv32, low: bv32, high: bv32)
    requires Xor(low, high) == x && LowByte(high) == 0
    ensures Xor(Shifts(low, 8), WithoutLowByte(high)) == Shifts(x, 8)
  {
    hide *;
    ShiftsOfHigh(high);
    ShiftsLinear(low, high, 8);
  }

  /** One table look-up does the work of eight serial steps, for every register and byte. */
  lemma TableStep(c: bv32, b: byte)
    ensures Xor(TableEntry(Index(c, b)), WithoutLowByte(c)) == FeedBits(c, Word(b), 8)
  {
    hide Shifts, FeedBits, Xor, LowByte, HighBytes, WithoutLowByte;
    var x := Xor(c, Word(b));
    IntRoundTrip(LowByte(x));
    Halves(x);
    ByteIsLow(c, b as bv8);
    TableStepOfHalves(x, LowByte(x), HighBytes(x));
    FeedIsShifts(c, b);
  }

  lemma ShiftCode(c: bv32)
    ensures Shift(c) == if c & 1 != 0 then 0xEDB8_8320 ^ (c >> 1) else c >> 1
  {
    assert c & 1 == 0 || c & 1 == 1;
  }

  /** The constant table, as its initializer computes it. */
  method BuildTable() returns (table: seq<bv32>)
    ensures |table| == 256
    ensures forall i :: 0 <= i < 256 ==> table[i] == TableEntry(i)
  {
    hide Shift;
    table := [];
    var i := 0;
    while i < 256
      invariant 0 <= i <= 256 && |table| == i
      invariant forall j :: 0 <= j < i ==> table[j] == TableEntry(j)
    {
      var c := i as bv32;
      var k := 0;
      while k < 8
        invariant 0 <= k <= 8
        invariant Shifts(c, 8 - k) == TableEntry(i)
      {
        ShiftCode(c);
        c := if c & 1 != 0 then 0xEDB8_8320 ^ (c >> 1) else c >> 1;
        k := k + 1;
      }
      table := table + [c];
      i := i + 1;
    }
  }

  /** The running checksum of one file. */
  class Crc32 {
    var value: bv32
    const table: seq<bv32>

    ghost predicate Valid()
    {
      |table| == 256 && forall i :: 0 <= i < 256 ==> table[i] == TableEntry(i)
    }

    constructor ()
      ensures Valid() && value == ALL_ONES
    {
      value := 0xFFFF_FFFF;
      var t := BuildTable();
      table := t;
    }

    /** Whatever the chunk, the register moves as if every bit had been fed. */
    method Update(chunk: bytes)
      requires Valid()
      modifies this
      ensures value == Serial(old(value), chunk)
    {
      hide Shifts, FeedBits, Word, Xor, Shift, WithoutLowByte;
      var c := value;
      var i := 0;
      while i < |chunk|
        invariant 0 <= i <= |chunk|
        invariant Serial(c, chunk[i..]) == Serial(old(value), chunk)
      {
        TableStep(c, chunk[i]);
        assert chunk[i..][1..] == chunk[i + 1..];
        c := Xor(table[Index(c, chunk[i])], WithoutLowByte(c));
        i := i + 1;
      }
      value := c;
    }

    function Finish(): bv32
      reads this
    {
      Xor(value, 0xFFFF_FFFF)
    }
  }

  // ---- What the checksum promises ----

  /** The register depends on the concatenation of the chunks only. */
  lemma {:induction false} SerialConcat(c: bv32, a: bytes, b: bytes)
    ensures Serial(c, a + b) == Serial(Serial(c, a), b)
    decreases |a|
  {
    hide FeedBits, Word;
    if a == [] {
      assert a + b == b;
    } else {
      assert (a + b)[1..] == a[1..] + b;
      SerialConcat(FeedBits(c, Word(a[0]), 8), a[1..], b);
    }
  }

  /** No two registers become equal by a shift. */
  lemma ShiftInjective(a: bv32, b: bv32)
    requires Shift(a) == Shift(b)
    ensures a == b
  {
    hide *;
    TopBit(a);
    TopBit(b);
    ShiftForm(a);
    ShiftForm(b);
    XorCancel(Half(a), Half(b), Poly(Low(a)));
    SameHalves(a, b);
  }

  lemma {:induction false} ShiftsInjective(a: bv32, b: bv32, n: nat)
    requires Shifts(a, n) == Shifts(b, n)
    ensures a == b
    decreases n
  {
    hide Shift;
    if n > 0 {
      ShiftsInjective(Shift(a), Shift(b), n - 1);
      ShiftInjective(a, b);
    }
  }

  lemma {:induction false} SerialInjective(a: bv32, b: bv32, message: bytes)
    requires Serial(a, message) == Serial(b, message)
    ensures a == b
    decreases |message|
  {
    hide Xor, Shifts, FeedBits, Word;
    if message != [] {
      var w := Word(message[0]);
      FeedIsShifts(a, message[0]);
      FeedIsShifts(b, message[0]);
      SerialInjective(FeedBits(a, w, 8), FeedBits(b, w, 8), message[1..]);
      ShiftsInjective(Xor(a, w), Xor(b, w), 8);
      XorCancel(a, b, w);
    }
  }

  lemma FeedInjective(c: bv32, x: bv8, y: bv8)
    requires FeedBits(c, Word(ByteOf(x)), 8) == FeedBits(c, Word(ByteOf(y)), 8)
    ensures x == y
  {
    hide *;
    FeedIsShifts(c, ByteOf(x));
    FeedIsShifts(c, ByteOf(y));
    ShiftsInjective(Xor(c, Word(ByteOf(x))), Xor(c, Word(ByteOf(y))), 8);
    XorCancel(Word(ByteOf(x)), Word(ByteOf(y)), c);
    WordInjective(x, y);
  }

  /** A file with one damaged byte has another checksum. */
  lemma OneByteDamageIsDetected(before: bytes, x: bv8, y: bv8, after: bytes)
    requires x != y
    ensures Crc32Of(before + [ByteOf(x)] + after) != Crc32Of(before + [ByteOf(y)] + after)
  {
    hide *;
    SerialAround(before, ByteOf(x), after);
    SerialAround(before, ByteOf(y), after);
    var c := Serial(ALL_ONES, before);
    if Crc32Of(before + [ByteOf(x)] + after) == Crc32Of(before + [ByteOf(y)] + after) {
      CrcDecidesSerial(before + [ByteOf(x)] + after, before + [ByteOf(y)] + after);
      SerialInjective(FeedBits(c, Word(ByteOf(x)), 8), FeedBits(c, Word(ByteOf(y)), 8), after);
      FeedInjective(c, x, y);
    }
  }

  lemma CrcDecidesSerial(a: bytes, b: bytes)
    requires Crc32Of(a) == Crc32Of(b)
    ensures Serial(ALL_ONES, a) == Serial(ALL_ONES, b)
  {
    hide Xor, Serial;
    XorCancel(Serial(ALL_ONES, a), Serial(ALL_ONES, b), ALL_ONES);
  }

  lemma SerialAround(before: bytes, z: byte, after: bytes)
    ensures Serial(ALL_ONES, before + [z] + after) == Serial(FeedBits(Serial(ALL_ONES, before), Word(z), 8), after)
  {
    hide FeedBits, Word;
    var c := Serial(ALL_ONES, before);
    SerialConcat(ALL_ONES, before + [z], after);
    SerialConcat(ALL_ONES, before, [z]);
    assert Serial(c, [z]) == Serial(FeedBits(c, Word(z), 8), []);
  }

  // ---- The reference value ----

  lemma SerialFirst(c: bv32, b: byte, rest: bytes)
    ensures Serial(c, [b] + rest) == Serial(FeedBits(c, Word(b), 8), rest)
  {
    hide FeedBits, Word;
    assert ([b] + rest)[1..] == rest;
  }

  lemma Three(c: bv32, x: byte, y: byte, z: byte)
    ensures Serial(c, [x, y, z]) == FeedBits(FeedBits(FeedBits(c, Word(x), 8), Word(y), 8), Word(z), 8)
  {
    hide FeedBits, Word;
    SerialFirst(c, x, [y, z]);
    assert [x] + [y, z] == [x, y, z];
    var c1 := FeedBits(c, Word(x), 8);
    SerialFirst(c1, y, [z]);
    assert [y] + [z] == [y, z];
    var c2 := FeedBits(c1, Word(y), 8);
    SerialFirst(c2, z, []);
    assert [z] + [] == [z];
  }

  lemma DigitWords()
    ensures Word(49) == 49 && Word(50) == 50 && Word(51) == 51 && Word(52) == 52 && Word(53) == 53
    ensures Word(54) == 54 && Word(55) == 55 && Word(56) == 56 && Word(57) == 57
  {
  }

  lemma Feed123()
    ensures FeedBits(0xFFFF_FFFF, 49, 8) == 0x7C23_1048
    ensures FeedBits(0x7C23_1048, 50, 8) == 0xB0AC_BB32
    ensures FeedBits(0xB0AC_BB32, 51, 8) == 0x77B7_9C2D
  {
  }

  lemma Serial123()
    ensures Serial(0xFFFF_FFFF, [49, 50, 51]) == 0x77B7_9C2D
  {
    hide *;
    Three(0xFFFF_FFFF, 49, 50, 51);
    Feed123();
    DigitWords();
  }

  lemma Feed456()
    ensures FeedBits(0x77B7_9C2D, 52, 8) == 0x641C_1F5C
    ensures FeedBits(0x641C_1F5C, 53, 8) == 0x340A_C5E3
    ensures FeedBits(0x340A_C5E3, 54, 8) == 0xF68D_2C9E
  {
  }

  lemma Serial456()
    ensures Serial(0x77B7_9C2D, [52, 53, 54]) == 0xF68D_2C9E
  {
    hide *;
    Three(0x77B7_9C2D, 52, 53, 54);
    Feed456();
    DigitWords();
  }

  lemma Feed789()
    ensures FeedBits(0xF68D_2C9E, 55, 8) == 0xAFFC_9660
    ensures FeedBits(0xAFFC_9660, 56, 8) == 0x651F_2550
    ensures FeedBits(0x651F_2550, 57, 8) == 0x340B_C6D9
  {
  }

  lemma Serial789()
    ensures Serial(0xF68D_2C9E, [55, 56, 57]) == 0x340B_C6D9
  {
    hide *;
    Three(0xF68D_2C9E, 55, 56, 57);
    Feed789();
    DigitWords();
  }

  lemma Complement(message: bytes, register: bv32, crc: bv32)
    requires Serial(ALL_ONES, message) == register && Xor(register, ALL_ONES) == crc
    ensures Crc32Of(message) == crc
  {
    hide Serial, Xor;
  }

  lemma Complements()
    ensures Xor(0x340B_C6D9, ALL_ONES) == 0xCBF4_3926 && Xor(ALL_ONES, ALL_ONES) == 0
  {
  }

  /** The checksum of the nine digits `123456789` that tells CRC-32 from its relatives, and of nothing. */
  lemma ReferenceValue()
    ensures Crc32Of([49, 50, 51, 52, 53, 54, 55, 56, 57]) == 0xCBF4_3926
    ensures Crc32Of([]) == 0
  {
    NoMessage();
    assert ALL_ONES == 0xFFFF_FFFF;
    hide *;
    Serial123();
    Serial456();
    Serial789();
    SerialOfThree(ALL_ONES, [49, 50, 51], [52, 53, 54], [55, 56, 57]);
    NineDigits();
    Complements();
    Complement([49, 50, 51, 52, 53, 54, 55, 56, 57], 0x340B_C6D9, 0xCBF4_3926);
    Complement([], ALL_ONES, 0);
  }

  lemma SerialOfThree(c: bv32, x: bytes, y: bytes, z: bytes)
    ensures Serial(c, x + (y + z)) == Serial(Serial(Serial(c, x), y), z)
  {
    hide *;
    SerialConcat(c, x, y + z);
    SerialConcat(Serial(c, x), y, z);
  }

  lemma NineDigits()
    ensures [49, 50, 51] + ([52, 53, 54] + [55, 56, 57]) == [49, 50, 51, 52, 53, 54, 55, 56, 57]
  {
  }

  lemma NoMessage()
    ensures Serial(ALL_ONES, []) == ALL_ONES
  {
  }
}
