/**
 The checksum of archive entries (`crc_table`, `crc32`): the table-driven form is proved equal to
 the bit-at-a-time CRC-32 of section 4.4.7 of PKWARE APPNOTE.TXT, by the linearity of the shift
 step over exclusive or.
 */
module Crc {

  /** The reversed polynomial. */
  const POLYNOMIAL: bv32 := 0xEDB8_8320

  function Xor(a: bv32, b: bv32): bv32 {
    a ^ b
  }

  function Half(value: bv32): bv32 {
    value >> 1
  }

  predicate Odd(value: bv32) {
    value & 1 != 0
  }

  /** The low byte, and the value without it. */
  function Low(value: bv32): bv32 {
    value & 0xFF
  }

  function High(value: bv32): bv32 {
    value & 0xFFFF_FF00
  }

  function Moved(value: bv32): bv32 {
    value >> 8
  }

  // ---- bit at a time --------------------------------------------------------------------------

  /** Shifts one bit out and subtracts the polynomial when it was set. */
  function Shift(value: bv32): bv32 {
    if Odd(value) then Xor(POLYNOMIAL, Half(value)) else Half(value)
  }

  function Shifts(value: bv32, n: nat): bv32
    decreases n
  {
    if n == 0 then value else Shifts(Shift(value), n - 1)
  }

  /** The checksum register after `n` bytes, one bit after the other. */
  function Register(bytes: seq<bv8>, n: nat): bv32
    requires n <= |bytes|
    decreases n
  {
    if n == 0 then 0xFFFF_FFFF else Shifts(Xor(Register(bytes, n - 1), bytes[n - 1] as bv32), 8)
  }

  function Checksum(bytes: seq<bv8>): bv32 {
    !Register(bytes, |bytes|)
  }

  // ---- exclusive or -----------------------------------------------------------------------------

  lemma {:induction false} XorAssociates(a: bv32, b: bv32, c: bv32)
    ensures Xor(a, Xor(b, c)) == Xor(Xor(a, b), c)
  {
    assert Xor(a, Xor(b, c)) == a ^ (b ^ c);
    assert Xor(Xor(a, b), c) == (a ^ b) ^ c;
  }

  lemma {:induction false} XorBasics(a: bv32, b: bv32)
    ensures Xor(a, b) == Xor(b, a) && Xor(a, a) == 0 && Xor(0, a) == a
  {
  }

  lemma {:induction false} XorMoves(p: bv32, a: bv32, b: bv32)
    ensures Xor(a, Xor(p, b)) == Xor(p, Xor(a, b))
    ensures Xor(Xor(p, a), Xor(p, b)) == Xor(a, b)
  {
    hide Xor;
    XorAssociates(a, p, b);
    XorAssociates(p, a, b);
    XorBasics(a, p);
    XorAssociates(a, p, Xor(p, b));
    XorAssociates(p, p, b);
    XorBasics(p, p);
    XorBasics(b, b);
  }

  lemma {:induction false} HalfOfXor(a: bv32, b: bv32)
    ensures Half(Xor(a, b)) == Xor(Half(a), Half(b))
    ensures Odd(Xor(a, b)) <==> Odd(a) != Odd(b)
  {
  }

  // ---- linearity ---------------------------------------------------------------------------------

  lemma {:induction false} ShiftIsLinear(a: bv32, b: bv32)
    ensures Shift(Xor(a, b)) == Xor(Shift(a), Shift(b))
  {
    hide Xor, Half, Odd;
    HalfOfXor(a, b);
    XorAssociates(POLYNOMIAL, Half(a), Half(b));
    XorMoves(POLYNOMIAL, Half(a), Half(b));
  }

  lemma {:induction false} ShiftsAreLinear(a: bv32, b: bv32, n: nat)
    ensures Shifts(Xor(a, b), n) == Xor(Shifts(a, n), Shifts(b, n))
    decreases n
  {
    hide Xor, Shift;
    if n > 0 {
      ShiftIsLinear(a, b);
      ShiftsAreLinear(Shift(a), Shift(b), n - 1);
    }
  }

  /** `n` halvings of a value with `n` zero low bits are its `n` shifts. */
  predicate EvenFor(value: bv32, n: nat)
    decreases n
  {
    n > 0 ==> !Odd(value) && EvenFor(Half(value), n - 1)
  }

  function Halves(value: bv32, n: nat): bv32
    decreases n
  {
    if n == 0 then value else Halves(Half(value), n - 1)
  }

  lemma {:induction false} ShiftsOfEven(value: bv32, n: nat)
    requires EvenFor(value, n)
    ensures Shifts(value, n) == Halves(value, n)
    decreases n
  {
    hide Xor, Half, Odd;
    if n > 0 {
      ShiftsOfEven(Half(value), n - 1);
    }
  }

  /** Eight halvings move the bytes down; the bits of a zero low byte are all even. */
  lemma {:induction false} HighBytesMove(value: bv32)
    ensures EvenFor(High(value), 8) && Halves(High(value), 8) == Moved(value)
  {
    var a, b, c, d := Half(High(value)), Half(Half(High(value))), Half(Half(Half(High(value)))), Half(Half(Half(Half(High(value)))));
    var e, f, g := Half(d), Half(Half(d)), Half(Half(Half(d)));
    assert !Odd(High(value)) && !Odd(a) && !Odd(b) && !Odd(c) && !Odd(d) && !Odd(e) && !Odd(f) && !Odd(g);
    assert Half(g) == Moved(value);
    hide Half, Odd, High, Moved;
    assert EvenFor(g, 1) && Halves(g, 1) == Half(g);
    assert EvenFor(f, 2) && Halves(f, 2) == Half(g);
    assert EvenFor(e, 3) && Halves(e, 3) == Half(g);
    assert EvenFor(d, 4) && Halves(d, 4) == Half(g);
    assert EvenFor(c, 5) && Halves(c, 5) == Half(g);
    assert EvenFor(b, 6) && Halves(b, 6) == Half(g);
    assert EvenFor(a, 7) && Halves(a, 7) == Half(g);
  }

  lemma {:induction false} SplitLowByte(value: bv32)
    ensures Xor(Low(value), High(value)) == value
  {
  }

  /** Eight shifts at once: look the low byte up and move the rest. */
  lemma {:induction false} EightShifts(value: bv32)
    ensures Shifts(value, 8) == Xor(Shifts(Low(value), 8), Moved(value))
  {
    hide Xor, Low, High, Moved, Shifts, Halves, EvenFor;
    SplitLowByte(value);
    ShiftsAreLinear(Low(value), High(value), 8);
    HighBytesMove(value);
    ShiftsOfEven(High(value), 8);
  }

  // ---- the table --------------------------------------------------------------------------------------

  /** The table holds the eight shifts of each byte. */
  predicate IsTable(table: seq<bv32>) {
    |table| == 256 && forall i :: 0 <= i < |table| ==> table[i] == Shifts(i as bv32, 8)
  }

  lemma {:induction false} ShiftsStep(value: bv32, n: nat)
    ensures Shifts(value, n + 1) == Shift(Shifts(value, n))
    decreases n
  {
    hide Shift;
    if n > 0 {
      ShiftsStep(Shift(value), n - 1);
    }
  }

  /** Eight shifts of one index. */
  method TableEntry(index: bv32) returns (value: bv32)
    ensures value == Shifts(index, 8)
  {
    hide Shifts;
    value := index;
    ShiftsStart(index);
    for bit := 0 to 8
      invariant value == Shifts(index, bit)
    {
      ShiftsStep(index, bit);
      value := if value & 1 != 0 then POLYNOMIAL ^ (value >> 1) else value >> 1;
    }
  }

  lemma {:induction false} ShiftsStart(value: bv32)
    ensures Shifts(value, 0) == value
  {
  }

  method CrcTable() returns (table: seq<bv32>)
    ensures IsTable(table)
  {
    hide Shifts;
    var entries := new bv32[256];
    for index := 0 to 256
      invariant forall i :: 0 <= i < index ==> entries[i] == Shifts(i as bv32, 8)
    {
      entries[index] := TableEntry(index as bv32);
    }
    table := entries[..];
  }

  /** The low byte of a value is an index into the table. */
  lemma {:induction false} LowIsIndex(value: bv32)
    ensures (Low(value) as int) < 256 && (Low(value) as int) as bv32 == Low(value)
  {
  }

  /** Mixing a byte in does not touch the three bytes above it. */
  lemma {:induction false} HighBytesUnmixed(crc: bv32, byte: bv8)
    ensures Moved(Xor(crc, byte as bv32)) == Moved(crc)
  {
  }

  method Crc32(bytes: seq<bv8>) returns (crc: bv32)
    ensures crc == Checksum(bytes)
  {
    hide Xor, Low, Moved, Shifts;
    var table := CrcTable();
    crc := 0xFFFF_FFFF;
    for i := 0 to |bytes|
      invariant crc == Register(bytes, i)
    {
      var mixed := Xor(crc, bytes[i] as bv32);
      EightShifts(mixed);
      HighBytesUnmixed(crc, bytes[i]);
      LowIsIndex(mixed);
      crc := Xor(table[Low(mixed) as int], Moved(crc));
    }
    crc := !crc;
  }

  // ---- the check value ----------------------------------------------------------------------------------

  lemma {:induction false} EightOnes(value: bv32)
    ensures Shifts(value, 8) == Shift(Shift(Shift(Shift(Shift(Shift(Shift(Shift(value))))))))
  {
    hide Shift;
    var four := Shift(Shift(Shift(Shift(value))));
    assert Shifts(value, 8) == Shifts(Shift(value), 7) == Shifts(Shift(Shift(value)), 6) == Shifts(Shift(Shift(Shift(value))), 5) == Shifts(four, 4);
    assert Shifts(four, 4) == Shifts(Shift(four), 3) == Shifts(Shift(Shift(four)), 2) == Shifts(Shift(Shift(Shift(four))), 1)
      == Shifts(Shift(Shift(Shift(Shift(four)))), 0);
  }

  /** The register after one more byte. */
  lemma {:induction false} OneByte(bytes: seq<bv8>, n: nat, byte: bv8, before: bv32, after: bv32)
    requires n < |bytes| && bytes[n] == byte && Register(bytes, n) == before
    requires Shift(Shift(Shift(Shift(Shift(Shift(Shift(Shift(before ^ (byte as bv32))))))))) == after
    ensures Register(bytes, n + 1) == after
  {
    hide Shift, Shifts;
    EightOnes(before ^ (bytes[n] as bv32));
  }

  const DIGITS: seq<bv8> := [0x31, 0x32, 0x33, 0x34, 0x35, 0x36, 0x37, 0x38, 0x39]

  /** The checksum of the nine digits from one is the check value that is published for this CRC-32. */
  lemma {:induction false} CheckValue()
    ensures Checksum([0x31, 0x32, 0x33, 0x34, 0x35, 0x36, 0x37, 0x38, 0x39]) == 0xCBF4_3926
  {
    hide Register;
    RegisterStart(DIGITS);
    OneByte(DIGITS, 0, 0x31, 0xFFFF_FFFF, 0x7C23_1048);
    OneByte(DIGITS, 1, 0x32, 0x7C23_1048, 0xB0AC_BB32);
    OneByte(DIGITS, 2, 0x33, 0xB0AC_BB32, 0x77B7_9C2D);
    OneByte(DIGITS, 3, 0x34, 0x77B7_9C2D, 0x641C_1F5C);
    OneByte(DIGITS, 4, 0x35, 0x641C_1F5C, 0x340A_C5E3);
    OneByte(DIGITS, 5, 0x36, 0x340A_C5E3, 0xF68D_2C9E);
    OneByte(DIGITS, 6, 0x37, 0xF68D_2C9E, 0xAFFC_9660);
    OneByte(DIGITS, 7, 0x38, 0xAFFC_9660, 0x651F_2550);
    OneByte(DIGITS, 8, 0x39, 0x651F_2550, 0x340B_C6D9);
  }

  lemma {:induction false} RegisterStart(bytes: seq<bv8>)
    ensures Register(bytes, 0) == 0xFFFF_FFFF
  {
  }
}
