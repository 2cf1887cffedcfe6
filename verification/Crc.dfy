/** The table-driven CRC-32 of the caption chunk, against the bit-by-bit CRC of ISO/IEC 15948
    section 5.5. */
module Crc {

  // The operators of the register, under names that proofs can hide.

  function Xor(x: bv32, y: bv32): bv32 { x ^ y }

  function Half(x: bv32): bv32 { x >> 1 }

  function Odd(x: bv32): bool { x & 1 != 0 }

  function Poly(): bv32 { 0xEDB88320 }

  /** One bit: shift, and add the polynomial when a one falls out. */
  function Bit(c: bv32): bv32 {
    if Odd(c) then Xor(Poly(), Half(c)) else Half(c)
  }

  function Bits(c: bv32, n: nat): bv32
    decreases n
  {
    if n == 0 then c else Bits(Bit(c), n - 1)
  }

  /** The register after a byte string, bit by bit. */
  function Register(crc: bv32, data: seq<bv8>): bv32
    decreases |data|
  {
    if data == [] then crc else Register(Bits(Xor(crc, data[0] as bv32), 8), data[1..])
  }

  /** The CRC of a byte string, bit by bit. */
  function BitwiseCrc(data: seq<bv8>): bv32 {
    Xor(Register(0xFFFFFFFF, data), 0xFFFFFFFF)
  }

  lemma {:induction false} XorOdd(x: bv32, y: bv32)
    ensures Odd(Xor(x, y)) == (Odd(x) != Odd(y))
  {
  }

  lemma {:induction false} XorHalf(x: bv32, y: bv32)
    ensures Half(Xor(x, y)) == Xor(Half(x), Half(y))
  {
  }

  lemma {:induction false} XorAssociates(p: bv32, a: bv32, b: bv32)
    ensures Xor(p, Xor(a, b)) == Xor(Xor(p, a), b)
  {
  }

  lemma {:induction false} XorCommutes(p: bv32, a: bv32)
    ensures Xor(p, a) == Xor(a, p)
  {
  }

  lemma {:induction false} XorCancels(p: bv32, a: bv32)
    ensures Xor(p, Xor(p, a)) == a
  {
  }

  lemma {:induction false} XorLaws(p: bv32, a: bv32, b: bv32)
    ensures Xor(Xor(p, a), Xor(p, b)) == Xor(a, b)
    ensures Xor(p, Xor(a, b)) == Xor(Xor(p, a), b) && Xor(p, Xor(a, b)) == Xor(a, Xor(p, b))
  {
    hide Xor;
    XorAssociates(Xor(p, a), p, b);
    XorCommutes(p, Xor(p, a));
    XorCancels(p, a);
    XorAssociates(p, a, b);
    XorAssociates(a, p, b);
    XorCommutes(p, a);
  }

  lemma {:induction false} BitLinear(x: bv32, y: bv32)
    ensures Bit(Xor(x, y)) == Xor(Bit(x), Bit(y))
  {
    hide Xor, Half, Odd, Poly;
    XorOdd(x, y);
    XorHalf(x, y);
    XorLaws(Poly(), Half(x), Half(y));
  }

  lemma {:induction false} BitsLinear(x: bv32, y: bv32, n: nat)
    ensures Bits(Xor(x, y), n) == Xor(Bits(x, n), Bits(y, n))
    decreases n
  {
    hide Bit, Xor;
    if n > 0 {
      BitLinear(x, y);
      BitsLinear(Bit(x), Bit(y), n - 1);
    }
  }

  function And(x: bv32, y: bv32): bv32 { x & y }

  function High(): bv32 { 0xFFFFFF00 }

  function Low(c: bv32): bv32 { c & 0xFF }

  function Down(c: bv32): bv32 { c >> 8 }

  function Halved(c: bv32, n: nat): bv32
    decreases n
  {
    if n == 0 then c else Halved(Half(c), n - 1)
  }

  /** The mask's low n bits are clear. */
  predicate Clear(m: bv32, n: nat)
    decreases n
  {
    n == 0 || (!Odd(m) && Clear(Half(m), n - 1))
  }

  lemma {:induction false} AndOdd(x: bv32, y: bv32)
    ensures Odd(And(x, y)) == (Odd(x) && Odd(y))
  {
  }

  lemma {:induction false} AndHalf(x: bv32, y: bv32)
    ensures Half(And(x, y)) == And(Half(x), Half(y))
  {
  }

  /** Zeros falling out only shift. */
  lemma {:induction false} ClearBits(c: bv32, m: bv32, n: nat)
    requires Clear(m, n)
    ensures Bits(And(c, m), n) == And(Halved(c, n), Halved(m, n))
    decreases n
  {
    hide And, Half, Odd, Xor, Poly;
    if n > 0 {
      AndOdd(c, m);
      AndHalf(c, m);
      ClearBits(Half(c), Half(m), n - 1);
    }
  }

  lemma {:induction false} HighClear()
    ensures Clear(High(), 8) && Halved(High(), 8) == 0x00FFFFFF
  {
    var m: bv32 := 0xFFFFFF00;
    assert Half(m) == 0x7FFFFF80 && Half(0x7FFFFF80) == 0x3FFFFFC0 && Half(0x3FFFFFC0) == 0x1FFFFFE0
           && Half(0x1FFFFFE0) == 0x0FFFFFF0 && Half(0x0FFFFFF0) == 0x07FFFFF8 && Half(0x07FFFFF8) == 0x03FFFFFC
           && Half(0x03FFFFFC) == 0x01FFFFFE && Half(0x01FFFFFE) == 0x00FFFFFF;
  }

  function Quarter(c: bv32): bv32 { c >> 2 }

  lemma {:induction false} HalvedTwice(c: bv32, n: nat)
    requires n >= 2
    ensures Halved(c, n) == Halved(Quarter(c), n - 2)
  {
  }

  lemma {:induction false} QuartersDown(c: bv32)
    ensures And(Quarter(Quarter(Quarter(Quarter(c)))), 0x00FFFFFF) == Down(c)
  {
  }

  lemma {:induction false} HalvedDown(c: bv32)
    ensures And(Halved(c, 8), 0x00FFFFFF) == Down(c)
  {
    hide And, Half, Quarter, Down;
    QuartersDown(c);
    HalvedTwice(c, 8);
    HalvedTwice(Quarter(c), 6);
    HalvedTwice(Quarter(Quarter(c)), 4);
    HalvedTwice(Quarter(Quarter(Quarter(c))), 2);
  }

  lemma {:induction false} HighBits(c: bv32)
    ensures Bits(And(c, High()), 8) == Down(c)
  {
    hide Bits, Half, Odd, High, Down, And, Halved, Clear;
    HighClear();
    HalvedDown(c);
    ClearBits(c, High(), 8);
  }

  /** A whole byte at once: look the low byte up, shift the rest. */
  lemma {:induction false} ByteAtOnce(c: bv32)
    ensures Bits(c, 8) == Xor(Bits(Low(c), 8), Down(c))
  {
    hide Bits, Xor, Low, Down, And, High;
    SplitByte(c);
    BitsLinear(Low(c), And(c, High()), 8);
    HighBits(c);
  }

  lemma {:induction false} SplitByte(c: bv32)
    ensures c == Xor(Low(c), And(c, High()))
  {
  }

  function Index(b: bv8): (n: nat)
    ensures n < 256
  {
    b as int
  }

  function Entry(b: bv8): bv32 { Bits(b as bv32, 8) }

  lemma {:induction false} IndexInjective(a: bv8, b: bv8)
    requires Index(a) == Index(b)
    ensures a == b
  {
  }

  lemma {:induction false} IndexNext(b: bv8)
    requires Index(b) < 255
    ensures Index(b + 1) == Index(b) + 1
  {
  }

  /** The lookup table: 256 registers after eight bits. */
  ghost predicate IsTable(table: seq<bv32>) {
    |table| == 256 && forall b: bv8 :: table[Index(b)] == Entry(b)
  }

  method TableEntry(b: bv8) returns (c: bv32)
    ensures c == Entry(b)
  {
    hide Bits, Bit, Xor, Half, Odd, Poly;
    c := b as bv32;
    BitsNone(c);
    for i := 0 to 8
      invariant Bits(b as bv32, 8) == Bits(c, 8 - i)
    {
      BitsNext(c, 8 - i);
      BitIs(c);
      if Odd(c) {
        c := Xor(Poly(), Half(c));
      } else {
        c := Half(c);
      }
    }
    BitsNone(c);
  }

  method BuildTable() returns (table: seq<bv32>)
    ensures IsTable(table)
  {
    hide Index, Entry;
    table := [];
    var b: bv8 := 0;
    IndexZero();
    for n := 0 to 256
      invariant |table| == n && (n < 256 ==> Index(b) == n)
      invariant forall k: bv8 :: Index(k) < n ==> table[Index(k)] == Entry(k)
    {
      var c := TableEntry(b);
      forall k: bv8 | Index(k) == n ensures k == b {
        IndexInjective(k, b);
      }
      table := table + [c];
      if n < 255 {
        IndexNext(b);
        b := b + 1;
      }
    }
  }

  lemma {:induction false} IndexZero()
    ensures Index(0) == 0
  {
  }

  lemma {:induction false} BitsNext(c: bv32, n: nat)
    requires n > 0
    ensures Bits(c, n) == Bits(Bit(c), n - 1)
  {
    hide Bit;
  }

  lemma {:induction false} BitsNone(c: bv32)
    ensures Bits(c, 0) == c
  {
  }

  lemma {:induction false} BitIs(c: bv32)
    ensures Bit(c) == if Odd(c) then Xor(Poly(), Half(c)) else Half(c)
  {
  }

  /** One byte of the table-driven loop is eight bits of the register. */
  lemma {:induction false} RegisterStep(crc: bv32, b: bv8, table: seq<bv32>)
    requires IsTable(table)
    ensures Xor(table[Index(LowByte(Xor(crc, b as bv32)))], Down(crc)) == Bits(Xor(crc, b as bv32), 8)
  {
    hide Bits, Xor, Low, Down, LowByte, Index;
    var x := Xor(crc, b as bv32);
    ByteAtOnce(x);
    LowByteIs(crc, b);
    var index := LowByte(x);
    assert table[Index(index)] == Entry(index);
  }

  lemma {:induction false} RegisterNext(crc: bv32, data: seq<bv8>, i: nat)
    requires i < |data|
    ensures Register(crc, data[i..]) == Register(Bits(Xor(crc, data[i] as bv32), 8), data[i + 1..])
  {
    hide Bits, Xor;
    assert data[i..][0] == data[i] && data[i..][1..] == data[i + 1..];
  }

  /** The table-driven CRC. */
  method TableCrc(data: seq<bv8>, table: seq<bv32>) returns (crc: bv32)
    requires IsTable(table)
    ensures crc == BitwiseCrc(data)
  {
    hide Register, Bits, Xor, Down, LowByte, IsTable, Index;
    crc := 0xFFFFFFFF;
    assert data[0..] == data;
    TableSize(table);
    for i := 0 to |data|
      invariant Register(0xFFFFFFFF, data) == Register(crc, data[i..])
    {
      RegisterNext(crc, data, i);
      RegisterStep(crc, data[i], table);
      crc := Xor(table[Index(LowByte(Xor(crc, data[i] as bv32)))], Down(crc));
    }
    RegisterNone(crc);
    assert data[|data|..] == [];
    return Xor(crc, 0xFFFFFFFF);
  }

  lemma {:induction false} TableSize(table: seq<bv32>)
    requires IsTable(table)
    ensures |table| == 256
  {
  }

  lemma {:induction false} RegisterNone(crc: bv32)
    ensures Register(crc, []) == crc
  {
  }

  function LowByte(x: bv32): bv8 {
    (x & 0xFF) as bv8
  }

  lemma {:induction false} LowByteIs(crc: bv32, b: bv8)
    ensures var x := Xor(crc, b as bv32);
      Down(x) == Down(crc) && LowByte(x) as bv32 == Low(x)
  {
  }

  // ---- the published check value ----

  lemma {:induction false} OneByte(crc: bv32, b: bv8, data: seq<bv8>)
    ensures Register(crc, [b] + data) == Register(Bits(Xor(crc, b as bv32), 8), data)
  {
    hide Bits, Xor;
    assert ([b] + data)[1..] == data;
  }

  lemma {:induction false} EightBits(c: bv32)
    ensures Bits(c, 8) == Bit(Bit(Bit(Bit(Bit(Bit(Bit(Bit(c))))))))
  {
    hide Bit;
    var c4 := Bit(Bit(Bit(Bit(c))));
    assert Bits(c, 8) == Bits(c4, 4);
  }

  lemma {:induction false} Digit1()
    ensures Bits(Xor(0xffffffff, 0x31), 8) == 0x7c231048
  {
    hide Bits;
    EightBits(Xor(0xffffffff, 0x31));
  }

  lemma {:induction false} Digit2()
    ensures Bits(Xor(0x7c231048, 0x32), 8) == 0xb0acbb32
  {
    hide Bits;
    EightBits(Xor(0x7c231048, 0x32));
  }

  lemma {:induction false} Digit3()
    ensures Bits(Xor(0xb0acbb32, 0x33), 8) == 0x77b79c2d
  {
    hide Bits;
    EightBits(Xor(0xb0acbb32, 0x33));
  }

  lemma {:induction false} Digit4()
    ensures Bits(Xor(0x77b79c2d, 0x34), 8) == 0x641c1f5c
  {
    hide Bits;
    EightBits(Xor(0x77b79c2d, 0x34));
  }

  lemma {:induction false} Digit5()
    ensures Bits(Xor(0x641c1f5c, 0x35), 8) == 0x340ac5e3
  {
    hide Bits;
    EightBits(Xor(0x641c1f5c, 0x35));
  }

  lemma {:induction false} Digit6()
    ensures Bits(Xor(0x340ac5e3, 0x36), 8) == 0xf68d2c9e
  {
    hide Bits;
    EightBits(Xor(0x340ac5e3, 0x36));
  }

  lemma {:induction false} Digit7()
    ensures Bits(Xor(0xf68d2c9e, 0x37), 8) == 0xaffc9660
  {
    hide Bits;
    EightBits(Xor(0xf68d2c9e, 0x37));
  }

  lemma {:induction false} Digit8()
    ensures Bits(Xor(0xaffc9660, 0x38), 8) == 0x651f2550
  {
    hide Bits;
    EightBits(Xor(0xaffc9660, 0x38));
  }

  lemma {:induction false} Digit9()
    ensures Bits(Xor(0x651f2550, 0x39), 8) == 0x340bc6d9
  {
    hide Bits;
    EightBits(Xor(0x651f2550, 0x39));
  }

  /** The CRC of the digits "123456789" is the published check value. */
  lemma {:induction false} CheckValue()
    ensures BitwiseCrc([0x31, 0x32, 0x33, 0x34, 0x35, 0x36, 0x37, 0x38, 0x39]) == 0xCBF43926
  {
    hide Register, Bits;
    OneByte(0xffffffff, 0x31, [0x32, 0x33, 0x34, 0x35, 0x36, 0x37, 0x38, 0x39]);
    Digit1();
    assert [0x31 as bv8] + [0x32, 0x33, 0x34, 0x35, 0x36, 0x37, 0x38, 0x39] == [0x31, 0x32, 0x33, 0x34, 0x35, 0x36, 0x37, 0x38, 0x39];
    OneByte(0x7c231048, 0x32, [0x33, 0x34, 0x35, 0x36, 0x37, 0x38, 0x39]);
    Digit2();
    assert [0x32 as bv8] + [0x33, 0x34, 0x35, 0x36, 0x37, 0x38, 0x39] == [0x32, 0x33, 0x34, 0x35, 0x36, 0x37, 0x38, 0x39];
    OneByte(0xb0acbb32, 0x33, [0x34, 0x35, 0x36, 0x37, 0x38, 0x39]);
    Digit3();
    assert [0x33 as bv8] + [0x34, 0x35, 0x36, 0x37, 0x38, 0x39] == [0x33, 0x34, 0x35, 0x36, 0x37, 0x38, 0x39];
    OneByte(0x77b79c2d, 0x34, [0x35, 0x36, 0x37, 0x38, 0x39]);
    Digit4();
    assert [0x34 as bv8] + [0x35, 0x36, 0x37, 0x38, 0x39] == [0x34, 0x35, 0x36, 0x37, 0x38, 0x39];
    OneByte(0x641c1f5c, 0x35, [0x36, 0x37, 0x38, 0x39]);
    Digit5();
    assert [0x35 as bv8] + [0x36, 0x37, 0x38, 0x39] == [0x35, 0x36, 0x37, 0x38, 0x39];
    OneByte(0x340ac5e3, 0x36, [0x37, 0x38, 0x39]);
    Digit6();
    assert [0x36 as bv8] + [0x37, 0x38, 0x39] == [0x36, 0x37, 0x38, 0x39];
    OneByte(0xf68d2c9e, 0x37, [0x38, 0x39]);
    Digit7();
    assert [0x37 as bv8] + [0x38, 0x39] == [0x37, 0x38, 0x39];
    OneByte(0xaffc9660, 0x38, [0x39]);
    Digit8();
    assert [0x38 as bv8] + [0x39] == [0x38, 0x39];
    OneByte(0x651f2550, 0x39, []);
    Digit9();
    assert [0x39 as bv8] + [] == [0x39];
    NoMoreDigits();
  }

  lemma {:induction false} NoMoreDigits()
    ensures Register(0x340bc6d9, []) == 0x340bc6d9
  {
  }
}
