/**
 CRC32C.  The reference works bit by bit with the reflected polynomial 0x82f63b78; the code works on
 four tables, byte by byte or four bytes at a time, depending on where the buffer is in memory.
*/
module Crc32 {
  import opened CrcTables

  const POLYNOMIAL: bv32 := 0x82f63b78

  // ----- The reference -----

  function Xor(a: bv32, b: bv32): bv32 { a ^ b }
  function Half(x: bv32): bv32 { x >> 1 }
  predicate Odd(x: bv32) { x & 1 == 1 }

  // One bit of division by the polynomial.
  function Bit(x: bv32): bv32 {
    if Odd(x) then Xor(Half(x), POLYNOMIAL) else Half(x)
  }

  function Byte(x: bv32): bv32 {
    Bit(Bit(Bit(Bit(Bit(Bit(Bit(Bit(x))))))))
  }

  // The register after the bytes of data.
  function Crc(l: bv32, data: seq<bv8>): bv32
    decreases |data|
  {
    if data == [] then l else Crc(Byte(Xor(l, data[0] as bv32)), data[1..])
  }

  // The checksum of what crc stands for, followed by data.
  function Extend(crc: bv32, data: seq<bv8>): bv32 {
    Xor(Crc(Xor(crc, 0xffffffff), data), 0xffffffff)
  }

  // ----- Laws of exclusive or -----

  lemma XorLaws(a: bv32, b: bv32, c: bv32)
    ensures Xor(Xor(a, b), c) == Xor(a, Xor(b, c)) && Xor(a, b) == Xor(b, a)
    ensures Xor(Xor(a, b), b) == a && Xor(a, 0) == a
  {
  }

  lemma XorMoves(a: bv32, b: bv32, p: bv32)
    ensures Xor(Xor(a, p), b) == Xor(Xor(a, b), p)
    ensures Xor(Xor(a, p), Xor(b, p)) == Xor(a, b)
    ensures Xor(a, Xor(b, p)) == Xor(Xor(a, b), p)
  {
  }

  // ----- Division is linear -----

  lemma HalfIsLinear(x: bv32, y: bv32)
    ensures Half(Xor(x, y)) == Xor(Half(x), Half(y))
  {
  }

  lemma OddIsLinear(x: bv32, y: bv32)
    ensures Odd(Xor(x, y)) <==> Odd(x) != Odd(y)
  {
    assert (x ^ y) & 1 == (x & 1) ^ (y & 1);
  }

  lemma BitIsLinear(x: bv32, y: bv32)
    ensures Bit(Xor(x, y)) == Xor(Bit(x), Bit(y))
  {
    hide Xor, Half, Odd;
    HalfIsLinear(x, y);
    OddIsLinear(x, y);
    XorMoves(Half(x), Half(y), POLYNOMIAL);
  }

  lemma ByteIsLinear(x: bv32, y: bv32)
    ensures Byte(Xor(x, y)) == Xor(Byte(x), Byte(y))
  {
    hide Bit, Xor;
    var x1, y1 := Bit(x), Bit(y);
    var x2, y2 := Bit(x1), Bit(y1);
    var x3, y3 := Bit(x2), Bit(y2);
    var x4, y4 := Bit(x3), Bit(y3);
    var x5, y5 := Bit(x4), Bit(y4);
    var x6, y6 := Bit(x5), Bit(y5);
    var x7, y7 := Bit(x6), Bit(y6);
    BitIsLinear(x, y);
    BitIsLinear(x1, y1);
    BitIsLinear(x2, y2);
    BitIsLinear(x3, y3);
    BitIsLinear(x4, y4);
    BitIsLinear(x5, y5);
    BitIsLinear(x6, y6);
    BitIsLinear(x7, y7);
  }

  // A register whose low byte is zero is only shifted.
  lemma ByteOfHigh(x: bv32)
    ensures Byte(x & 0xffffff00) == x >> 8
  {
  }

  // ----- The tables -----

  function If(c: bool, v: bv32): bv32 {
    if c then v else 0
  }

  // The sum of the values that belong to the bits of i.
  function Combine(i: bv8, c0: bv32, c1: bv32, c2: bv32, c3: bv32, c4: bv32, c5: bv32, c6: bv32, c7: bv32): bv32 {
    Xor(Xor(Xor(If(i & 1 != 0, c0), If(i & 2 != 0, c1)), Xor(If(i & 4 != 0, c2), If(i & 8 != 0, c3))),
        Xor(Xor(If(i & 16 != 0, c4), If(i & 32 != 0, c5)), Xor(If(i & 64 != 0, c6), If(i & 128 != 0, c7))))
  }

  lemma ByteOfIf(c: bool, v: bv32)
    ensures Byte(If(c, v)) == If(c, Byte(v))
  {
    hide Bit;
    if !c { ByteOfZero(); }
  }

  lemma ByteOfZero()
    ensures Byte(0) == 0
  {
  }

  lemma ByteOfSum4(a: bv32, b: bv32, c: bv32, d: bv32)
    ensures Byte(Xor(Xor(a, b), Xor(c, d))) == Xor(Xor(Byte(a), Byte(b)), Xor(Byte(c), Byte(d)))
  {
    hide Byte, Xor;
    ByteIsLinear(Xor(a, b), Xor(c, d));
    ByteIsLinear(a, b);
    ByteIsLinear(c, d);
  }

  // By linearity the values of the eight bits determine the rest.
  lemma ByteOfCombine(i: bv8, c0: bv32, c1: bv32, c2: bv32, c3: bv32, c4: bv32, c5: bv32, c6: bv32, c7: bv32)
    ensures Byte(Combine(i, c0, c1, c2, c3, c4, c5, c6, c7)) ==
      Combine(i, Byte(c0), Byte(c1), Byte(c2), Byte(c3), Byte(c4), Byte(c5), Byte(c6), Byte(c7))
  {
    hide Byte, Xor, If;
    var a, b, c, d := If(i & 1 != 0, c0), If(i & 2 != 0, c1), If(i & 4 != 0, c2), If(i & 8 != 0, c3);
    var e, f, g, h := If(i & 16 != 0, c4), If(i & 32 != 0, c5), If(i & 64 != 0, c6), If(i & 128 != 0, c7);
    ByteIsLinear(Xor(Xor(a, b), Xor(c, d)), Xor(Xor(e, f), Xor(g, h)));
    ByteOfSum4(a, b, c, d);
    ByteOfSum4(e, f, g, h);
    ByteOfIf(i & 1 != 0, c0);
    ByteOfIf(i & 2 != 0, c1);
    ByteOfIf(i & 4 != 0, c2);
    ByteOfIf(i & 8 != 0, c3);
    ByteOfIf(i & 16 != 0, c4);
    ByteOfIf(i & 32 != 0, c5);
    ByteOfIf(i & 64 != 0, c6);
    ByteOfIf(i & 128 != 0, c7);
  }

  lemma SumOfBits(i: bv8)
    ensures i as bv32 == Combine(i, 1, 2, 4, 8, 16, 32, 64, 128)
  {
    hide If, Xor;
    MaskedBits(i);
    SumOfMasks(i as bv32);
  }

  lemma MaskedBits(i: bv8)
    ensures var x := i as bv32;
      && If(i & 1 != 0, 1) == x & 1 && If(i & 2 != 0, 2) == x & 2 && If(i & 4 != 0, 4) == x & 4
      && If(i & 8 != 0, 8) == x & 8
      && If(i & 16 != 0, 16) == x & 16 && If(i & 32 != 0, 32) == x & 32 && If(i & 64 != 0, 64) == x & 64
      && If(i & 128 != 0, 128) == x & 128
  {
  }

  lemma SumOfMasks(x: bv32)
    requires x < 256
    ensures x == Xor(Xor(Xor(x & 1, x & 2), Xor(x & 4, x & 8)), Xor(Xor(x & 16, x & 32), Xor(x & 64, x & 128)))
  {
  }

  lemma LowRows0(i: bv8)
    requires i < 64
    ensures Table0(i) ==
      Combine(i, 0xf26b8303, 0xe13b70f7, 0xc79a971f, 0x8ad958cf, 0x105ec76f, 0x20bd8ede, 0x417b1dbc, 0x82f63b78)
  {
  }

  lemma MidRows0(i: bv8)
    requires 64 <= i < 128
    ensures Table0(i) ==
      Combine(i, 0xf26b8303, 0xe13b70f7, 0xc79a971f, 0x8ad958cf, 0x105ec76f, 0x20bd8ede, 0x417b1dbc, 0x82f63b78)
  {
  }

  lemma HighRows0(i: bv8)
    requires i >= 128
    ensures Table0(i) ==
      Combine(i, 0xf26b8303, 0xe13b70f7, 0xc79a971f, 0x8ad958cf, 0x105ec76f, 0x20bd8ede, 0x417b1dbc, 0x82f63b78)
  {
  }

  lemma Rows0(i: bv8)
    ensures Table0(i) ==
      Combine(i, 0xf26b8303, 0xe13b70f7, 0xc79a971f, 0x8ad958cf, 0x105ec76f, 0x20bd8ede, 0x417b1dbc, 0x82f63b78)
  {
    hide Combine, Table0;
    if i < 64 { LowRows0(i); } else if i < 128 { MidRows0(i); } else { HighRows0(i); }
  }

  lemma Bits0()
    ensures Byte(1) == 0xf26b8303 && Byte(2) == 0xe13b70f7 && Byte(4) == 0xc79a971f && Byte(8) == 0x8ad958cf
    ensures Byte(16) == 0x105ec76f && Byte(32) == 0x20bd8ede && Byte(64) == 0x417b1dbc && Byte(128) == 0x82f63b78
  {
  }

  lemma LowRows1(i: bv8)
    requires i < 64
    ensures Table1(i) ==
      Combine(i, 0x13a29877, 0x274530ee, 0x4e8a61dc, 0x9d14c3b8, 0x3fc5f181, 0x7f8be302, 0xff17c604, 0xfbc3faf9)
  {
  }

  lemma MidRows1(i: bv8)
    requires 64 <= i < 128
    ensures Table1(i) ==
      Combine(i, 0x13a29877, 0x274530ee, 0x4e8a61dc, 0x9d14c3b8, 0x3fc5f181, 0x7f8be302, 0xff17c604, 0xfbc3faf9)
  {
  }

  lemma HighRows1(i: bv8)
    requires i >= 128
    ensures Table1(i) ==
      Combine(i, 0x13a29877, 0x274530ee, 0x4e8a61dc, 0x9d14c3b8, 0x3fc5f181, 0x7f8be302, 0xff17c604, 0xfbc3faf9)
  {
  }

  lemma Rows1(i: bv8)
    ensures Table1(i) ==
      Combine(i, 0x13a29877, 0x274530ee, 0x4e8a61dc, 0x9d14c3b8, 0x3fc5f181, 0x7f8be302, 0xff17c604, 0xfbc3faf9)
  {
    hide Combine, Table1;
    if i < 64 { LowRows1(i); } else if i < 128 { MidRows1(i); } else { HighRows1(i); }
  }

  lemma Bits1()
    ensures Byte(0xf26b8303) == 0x13a29877 && Byte(0xe13b70f7) == 0x274530ee && Byte(0xc79a971f) == 0x4e8a61dc
      && Byte(0x8ad958cf) == 0x9d14c3b8
    ensures Byte(0x105ec76f) == 0x3fc5f181 && Byte(0x20bd8ede) == 0x7f8be302 && Byte(0x417b1dbc) == 0xff17c604
      && Byte(0x82f63b78) == 0xfbc3faf9
  {
  }

  lemma LowRows2(i: bv8)
    requires i < 64
    ensures Table2(i) ==
      Combine(i, 0xa541927e, 0x4f6f520d, 0x9edea41a, 0x38513ec5, 0x70a27d8a, 0xe144fb14, 0xc76580d9, 0x8b277743)
  {
  }

  lemma MidRows2(i: bv8)
    requires 64 <= i < 128
    ensures Table2(i) ==
      Combine(i, 0xa541927e, 0x4f6f520d, 0x9edea41a, 0x38513ec5, 0x70a27d8a, 0xe144fb14, 0xc76580d9, 0x8b277743)
  {
  }

  lemma HighRows2(i: bv8)
    requires i >= 128
    ensures Table2(i) ==
      Combine(i, 0xa541927e, 0x4f6f520d, 0x9edea41a, 0x38513ec5, 0x70a27d8a, 0xe144fb14, 0xc76580d9, 0x8b277743)
  {
  }

  lemma Rows2(i: bv8)
    ensures Table2(i) ==
      Combine(i, 0xa541927e, 0x4f6f520d, 0x9edea41a, 0x38513ec5, 0x70a27d8a, 0xe144fb14, 0xc76580d9, 0x8b277743)
  {
    hide Combine, Table2;
    if i < 64 { LowRows2(i); } else if i < 128 { MidRows2(i); } else { HighRows2(i); }
  }

  lemma Bits2()
    ensures Byte(0x13a29877) == 0xa541927e && Byte(0x274530ee) == 0x4f6f520d && Byte(0x4e8a61dc) == 0x9edea41a
      && Byte(0x9d14c3b8) == 0x38513ec5
    ensures Byte(0x3fc5f181) == 0x70a27d8a && Byte(0x7f8be302) == 0xe144fb14 && Byte(0xff17c604) == 0xc76580d9
      && Byte(0xfbc3faf9) == 0x8b277743
  {
  }

  lemma LowRows3(i: bv8)
    requires i < 64
    ensures Table3(i) ==
      Combine(i, 0xdd45aab8, 0xbf672381, 0x7b2231f3, 0xf64463e6, 0xe964b13d, 0xd725148b, 0xaba65fe7, 0x52a0c93f)
  {
  }

  lemma MidRows3(i: bv8)
    requires 64 <= i < 128
    ensures Table3(i) ==
      Combine(i, 0xdd45aab8, 0xbf672381, 0x7b2231f3, 0xf64463e6, 0xe964b13d, 0xd725148b, 0xaba65fe7, 0x52a0c93f)
  {
  }

  lemma HighRows3(i: bv8)
    requires i >= 128
    ensures Table3(i) ==
      Combine(i, 0xdd45aab8, 0xbf672381, 0x7b2231f3, 0xf64463e6, 0xe964b13d, 0xd725148b, 0xaba65fe7, 0x52a0c93f)
  {
  }

  lemma Rows3(i: bv8)
    ensures Table3(i) ==
      Combine(i, 0xdd45aab8, 0xbf672381, 0x7b2231f3, 0xf64463e6, 0xe964b13d, 0xd725148b, 0xaba65fe7, 0x52a0c93f)
  {
    hide Combine, Table3;
    if i < 64 { LowRows3(i); } else if i < 128 { MidRows3(i); } else { HighRows3(i); }
  }

  lemma Bits3()
    ensures Byte(0xa541927e) == 0xdd45aab8 && Byte(0x4f6f520d) == 0xbf672381 && Byte(0x9edea41a) == 0x7b2231f3
      && Byte(0x38513ec5) == 0xf64463e6
    ensures Byte(0x70a27d8a) == 0xe964b13d && Byte(0xe144fb14) == 0xd725148b && Byte(0xc76580d9) == 0xaba65fe7
      && Byte(0x8b277743) == 0x52a0c93f
  {
  }

  // The tables hold one to four byte steps of their index.
  lemma TablesOk(i: bv8)
    ensures Table0(i) == Byte(i as bv32)
    ensures Table1(i) == Byte(Table0(i)) && Table2(i) == Byte(Table1(i)) && Table3(i) == Byte(Table2(i))
  {
    hide Byte, Combine, Table0, Table1, Table2, Table3;
    SumOfBits(i);
    Rows0(i);
    Bits0();
    ByteOfCombine(i, 1, 2, 4, 8, 16, 32, 64, 128);
    Rows1(i);
    Bits1();
    ByteOfCombine(i, 0xf26b8303, 0xe13b70f7, 0xc79a971f, 0x8ad958cf, 0x105ec76f, 0x20bd8ede, 0x417b1dbc, 0x82f63b78);
    Rows2(i);
    Bits2();
    ByteOfCombine(i, 0x13a29877, 0x274530ee, 0x4e8a61dc, 0x9d14c3b8, 0x3fc5f181, 0x7f8be302, 0xff17c604, 0xfbc3faf9);
    Rows3(i);
    Bits3();
    ByteOfCombine(i, 0xa541927e, 0x4f6f520d, 0x9edea41a, 0x38513ec5, 0x70a27d8a, 0xe144fb14, 0xc76580d9, 0x8b277743);
  }

  // ----- One and four bytes by table -----

  function Low8(x: bv32): bv8 {
    (x & 0xff) as bv8
  }

  // STEP1
  function Step1(l: bv32, b: bv8): bv32 {
    Xor(Table0(Low8(l) ^ b), l >> 8)
  }

  // LE_LOAD32
  function Word(b0: bv8, b1: bv8, b2: bv8, b3: bv8): bv32 {
    (b0 as bv32) | ((b1 as bv32) << 8) | ((b2 as bv32) << 16) | ((b3 as bv32) << 24)
  }

  function Byte1(c: bv32): bv8 { Low8(c >> 8) }
  function Byte2(c: bv32): bv8 { Low8(c >> 16) }
  function Byte3(c: bv32): bv8 { Low8(c >> 24) }

  // STEP4
  function Step4(l: bv32, word: bv32): bv32 {
    var c := Xor(l, word);
    Xor(Xor(Table3(Low8(c)), Table2(Byte1(c))), Xor(Table1(Byte2(c)), Table0(Byte3(c))))
  }

  lemma SplitLow(x: bv32)
    ensures x == Xor(Low8(x) as bv32, x & 0xffffff00)
  {
  }

  // A byte step is one table entry and a shift.
  lemma ByteByTable(x: bv32)
    ensures Byte(x) == Xor(Table0(Low8(x)), x >> 8)
  {
    hide Byte, Xor, Table0, Table1, Table2, Table3, Low8;
    SplitLow(x);
    ByteIsLinear(Low8(x) as bv32, x & 0xffffff00);
    ByteOfHigh(x);
    TablesOk(Low8(x));
  }

  lemma LowOfXor(l: bv32, b: bv8)
    ensures Low8(Xor(l, b as bv32)) == Low8(l) ^ b && Xor(l, b as bv32) >> 8 == l >> 8
  {
  }

  lemma Step1IsByte(l: bv32, b: bv8)
    ensures Step1(l, b) == Byte(Xor(l, b as bv32))
  {
    hide Byte, Xor, Table0, Low8;
    ByteByTable(Xor(l, b as bv32));
    LowOfXor(l, b);
  }

  function Byte4(x: bv32): bv32 {
    Byte(Byte(Byte(Byte(x))))
  }

  lemma Byte4IsLinear(x: bv32, y: bv32)
    ensures Byte4(Xor(x, y)) == Xor(Byte4(x), Byte4(y))
  {
    hide Byte, Xor;
    ByteIsLinear(x, y);
    ByteIsLinear(Byte(x), Byte(y));
    ByteIsLinear(Byte(Byte(x)), Byte(Byte(y)));
    ByteIsLinear(Byte(Byte(Byte(x))), Byte(Byte(Byte(y))));
  }

  // The bytes of a word in their places.
  function Place(b: bv8, k: nat): bv32 {
    if k == 0 then b as bv32 else if k == 1 then (b as bv32) << 8 else if k == 2 then (b as bv32) << 16
      else (b as bv32) << 24
  }

  lemma PlaceDown(b: bv8, k: nat)
    requires 1 <= k <= 3
    ensures Byte(Place(b, k)) == Place(b, k - 1)
  {
    hide Byte;
    var x := Place(b, k);
    ByteOfHigh(x);
    assert x & 0xffffff00 == x && x >> 8 == Place(b, k - 1);
  }

  lemma SplitWord(c: bv32)
    ensures c == Xor(Xor(Place(Low8(c), 0), Place(Byte1(c), 1)), Xor(Place(Byte2(c), 2), Place(Byte3(c), 3)))
  {
  }

  lemma WordIsPlaces(b0: bv8, b1: bv8, b2: bv8, b3: bv8)
    ensures Word(b0, b1, b2, b3) == Xor(Xor(Place(b0, 0), Place(b1, 1)), Xor(Place(b2, 2), Place(b3, 3)))
  {
  }

  // Four byte steps of a byte in place k: k of them only move it down.
  lemma Byte4OfPlace(b: bv8)
    ensures Byte4(Place(b, 0)) == Table3(b) && Byte4(Place(b, 1)) == Table2(b)
    ensures Byte4(Place(b, 2)) == Table1(b) && Byte4(Place(b, 3)) == Table0(b)
  {
    hide Byte, Table0, Table1, Table2, Table3;
    TablesOk(b);
    PlaceDown(b, 1);
    PlaceDown(b, 2);
    PlaceDown(b, 3);
    assert Byte(Place(b, 0)) == Table0(b);
    assert Byte(Place(b, 1)) == Place(b, 0);
    assert Byte(Place(b, 2)) == Place(b, 1);
    assert Byte(Place(b, 3)) == Place(b, 2);
  }

  lemma Byte4OfSum(a: bv32, b: bv32, c: bv32, d: bv32)
    ensures Byte4(Xor(Xor(a, b), Xor(c, d))) == Xor(Xor(Byte4(a), Byte4(b)), Xor(Byte4(c), Byte4(d)))
  {
    hide Byte4, Xor;
    Byte4IsLinear(Xor(a, b), Xor(c, d));
    Byte4IsLinear(a, b);
    Byte4IsLinear(c, d);
  }

  lemma Byte4ByTables(b0: bv8, b1: bv8, b2: bv8, b3: bv8)
    ensures Byte4(Xor(Xor(Place(b0, 0), Place(b1, 1)), Xor(Place(b2, 2), Place(b3, 3)))) ==
      Xor(Xor(Table3(b0), Table2(b1)), Xor(Table1(b2), Table0(b3)))
  {
    hide Byte4, Xor, Table0, Table1, Table2, Table3, Place;
    Byte4OfSum(Place(b0, 0), Place(b1, 1), Place(b2, 2), Place(b3, 3));
    Byte4OfPlace(b0);
    Byte4OfPlace(b1);
    Byte4OfPlace(b2);
    Byte4OfPlace(b3);
  }

  // The four-table step is four byte steps of the register with the word added.
  lemma Step4IsByte4(l: bv32, word: bv32)
    ensures Step4(l, word) == Byte4(Xor(l, word))
  {
    hide Byte4, Xor, Table0, Table1, Table2, Table3, Low8, Byte1, Byte2, Byte3, Place;
    var c := Xor(l, word);
    SplitWord(c);
    Byte4ByTables(Low8(c), Byte1(c), Byte2(c), Byte3(c));
  }

  // A byte that enters later can be added earlier, further up.
  lemma EntersEarlier(x: bv32, b: bv8, k: nat)
    requires k < 3
    ensures Xor(Byte(x), Place(b, k)) == Byte(Xor(x, Place(b, k + 1)))
  {
    hide Byte, Xor, Place;
    ByteIsLinear(x, Place(b, k + 1));
    PlaceDown(b, k + 1);
  }

  lemma FourBytes(l: bv32, b0: bv8, b1: bv8, b2: bv8, b3: bv8)
    ensures Byte4(Xor(l, Word(b0, b1, b2, b3))) ==
      Byte(Xor(Byte(Xor(Byte(Xor(Byte(Xor(l, b0 as bv32)), b1 as bv32)), b2 as bv32)), b3 as bv32))
  {
    hide Byte, Xor, Word;
    var x0 := Xor(l, Place(b0, 0));
    var x1 := Xor(x0, Place(b1, 1));
    var x2 := Xor(x1, Place(b2, 2));
    EntersEarlier(x0, b1, 0);
    EntersEarlier(x1, b2, 1);
    EntersEarlier(Byte(x1), b2, 0);
    EntersEarlier(x2, b3, 2);
    EntersEarlier(Byte(x2), b3, 1);
    EntersEarlier(Byte(Byte(x2)), b3, 0);
    WordIsPlaces(b0, b1, b2, b3);
    SumInOrder(l, Place(b0, 0), Place(b1, 1), Place(b2, 2), Place(b3, 3));
  }

  lemma SumInOrder(l: bv32, a: bv32, b: bv32, c: bv32, d: bv32)
    ensures Xor(l, Xor(Xor(a, b), Xor(c, d))) == Xor(Xor(Xor(Xor(l, a), b), c), d)
  {
    hide Xor;
    XorLaws(l, Xor(a, b), Xor(c, d));
    XorLaws(l, a, b);
    XorLaws(Xor(Xor(l, a), b), c, d);
  }

  // ----- The loops -----

  lemma CrcOne(l: bv32, data: seq<bv8>, p: nat)
    requires p < |data|
    ensures Crc(l, data[p..]) == Crc(Step1(l, data[p]), data[p + 1..])
  {
    hide Step1, Byte;
    Step1IsByte(l, data[p]);
    assert data[p..][1..] == data[p + 1..];
  }

  function Load(data: seq<bv8>, p: nat): bv32
    requires p + 4 <= |data|
  {
    Word(data[p], data[p + 1], data[p + 2], data[p + 3])
  }

  lemma CrcFour(l: bv32, data: seq<bv8>, p: nat)
    requires p + 4 <= |data|
    ensures Crc(l, data[p..]) == Crc(Step4(l, Load(data, p)), data[p + 4..])
  {
    hide Step4, Step1, Byte, Byte4, Word, Xor;
    var b0, b1, b2, b3 := data[p], data[p + 1], data[p + 2], data[p + 3];
    Step4IsByte4(l, Word(b0, b1, b2, b3));
    FourBytes(l, b0, b1, b2, b3);
    CrcUnfold(l, data, p);
    var l1 := Byte(Xor(l, b0 as bv32));
    CrcUnfold(l1, data, p + 1);
    var l2 := Byte(Xor(l1, b1 as bv32));
    CrcUnfold(l2, data, p + 2);
    CrcUnfold(Byte(Xor(l2, b2 as bv32)), data, p + 3);
  }

  lemma CrcUnfold(l: bv32, data: seq<bv8>, p: nat)
    requires p < |data|
    ensures Crc(l, data[p..]) == Crc(Byte(Xor(l, data[p] as bv32)), data[p + 1..])
  {
    hide Byte, Xor;
    assert data[p..][1..] == data[p + 1..];
  }

  // Crc32Extend, for a buffer at any address: bytes up to the first aligned word, sixteen bytes at a
  // time, four at a time, and the rest.
  method Crc32Extend(crc: bv32, data: seq<bv8>, address: nat) returns (r: bv32)
    ensures r == Extend(crc, data)
  {
    hide Step1, Step4, Byte, Xor, Load, Crc;
    var l, p, e := Xor(crc, 0xffffffff), 0, |data|;
    ghost var start := l;
    assert data[0..] == data;
    var x := (address + 3) / 4 * 4 - address;
    if x <= e {
      while p != x
        invariant 0 <= p <= x && Crc(start, data) == Crc(l, data[p..])
        decreases x - p
      {
        CrcOne(l, data, p);
        l := Step1(l, data[p]);
        p := p + 1;
      }
    }
    while e - p >= 16
      invariant 0 <= p <= e && Crc(start, data) == Crc(l, data[p..])
    {
      l := FourWords(l, data, p);
      p := p + 16;
    }
    while e - p >= 4
      invariant 0 <= p <= e && Crc(start, data) == Crc(l, data[p..])
    {
      CrcFour(l, data, p);
      l := Step4(l, Load(data, p));
      p := p + 4;
    }
    while p != e
      invariant 0 <= p <= e && Crc(start, data) == Crc(l, data[p..])
      decreases e - p
    {
      CrcOne(l, data, p);
      l := Step1(l, data[p]);
      p := p + 1;
    }
    NothingLeft(l, data);
    r := Xor(l, 0xffffffff);
  }

  method FourWords(l: bv32, data: seq<bv8>, p: nat) returns (r: bv32)
    requires p + 16 <= |data|
    ensures Crc(l, data[p..]) == Crc(r, data[p + 16..])
  {
    hide Step4, Load, Crc;
    CrcFour(l, data, p);
    r := Step4(l, Load(data, p));
    CrcFour(r, data, p + 4);
    r := Step4(r, Load(data, p + 4));
    CrcFour(r, data, p + 8);
    r := Step4(r, Load(data, p + 8));
    CrcFour(r, data, p + 12);
    r := Step4(r, Load(data, p + 12));
  }

  lemma NothingLeft(l: bv32, data: seq<bv8>)
    ensures Crc(l, data[|data|..]) == l
  {
    hide Byte;
  }

  // ----- Extending a checksum -----

  lemma {:induction false} CrcOfConcat(l: bv32, a: seq<bv8>, b: seq<bv8>)
    ensures Crc(Crc(l, a), b) == Crc(l, a + b)
    decreases |a|
  {
    hide Byte, Xor;
    if a == [] {
      assert a + b == b;
    } else {
      CrcOfConcat(Byte(Xor(l, a[0] as bv32)), a[1..], b);
      assert (a + b)[1..] == a[1..] + b;
    }
  }

  // The checksum of a concatenation can be computed in two calls.
  lemma ExtendOfConcat(crc: bv32, a: seq<bv8>, b: seq<bv8>)
    ensures Extend(Extend(crc, a), b) == Extend(crc, a + b)
  {
    hide Crc, Xor;
    var l := Crc(Xor(crc, 0xffffffff), a);
    XorLaws(l, 0xffffffff, 0);
    CrcOfConcat(Xor(crc, 0xffffffff), a, b);
  }

  // ----- Known values -----

  lemma WordOfBytes(x: bv32)
    ensures Word(Low8(x), Byte1(x), Byte2(x), Byte3(x)) == x
  {
  }

  lemma OnesDown()
    ensures Byte(0xffffffff) == 0xad82acae && Byte(0xad82acae) == 0x0e9e882d
    ensures Byte(0x0e9e882d) == 0x9f9b5c85 && Byte(0x9f9b5c85) == 0xb798b438
  {
  }

  lemma Complements(l: bv32)
    ensures Xor(l, Xor(l, 0xffffffff)) == 0xffffffff
  {
  }

  // A checksum as it is stored, the lowest byte first.
  function Stored(r: bv32): seq<bv8> {
    [Low8(r), Byte1(r), Byte2(r), Byte3(r)]
  }

  lemma FourMore(l: bv32, r: bv32)
    ensures Crc(l, Stored(r)) == Byte4(Xor(l, r))
  {
    hide Byte4, Step4, Crc, Xor, Low8, Byte1, Byte2, Byte3, Word;
    var tail := Stored(r);
    assert tail[0..] == tail;
    CrcFour(l, tail, 0);
    WordOfBytes(r);
    Step4IsByte4(l, r);
    NothingLeft(Step4(l, r), tail);
  }

  // The residue of CRC32C: data with its checksum after it always has the same checksum.
  lemma Residue(crc: bv32, data: seq<bv8>)
    ensures Extend(crc, data + Stored(Extend(crc, data))) == 0x48674bc7
  {
    hide Byte, Xor, Crc, Stored;
    var start := Xor(crc, 0xffffffff);
    var l, r := Crc(start, data), Extend(crc, data);
    CrcOfConcat(start, data, Stored(r));
    FourMore(l, r);
    Complements(l);
    OnesDown();
    ResidueOfOnes();
  }

  lemma ResidueOfOnes()
    ensures Xor(0xb798b438, 0xffffffff) == 0x48674bc7
  {
  }

  // The check value of the text "123456789".
  lemma CheckValue()
    ensures Extend(0, [0x31, 0x32, 0x33, 0x34, 0x35, 0x36, 0x37, 0x38, 0x39]) == 0xe3069283
  {
    hide Byte, Xor, Crc;
    var data: seq<bv8> := [0x31, 0x32, 0x33, 0x34, 0x35, 0x36, 0x37, 0x38, 0x39];
    assert data[0..] == data;
    CrcUnfold(0xffffffff, data, 0);
    CrcUnfold(0x6f0a661c, data, 1);
    CrcUnfold(0x8caa3b9f, data, 2);
    CrcUnfold(0xef84d04d, data, 3);
    CrcUnfold(0x09c50b11, data, 4);
    CrcUnfold(0xe72edcca, data, 5);
    CrcUnfold(0xbeca8e79, data, 6);
    CrcUnfold(0xedbd6815, data, 7);
    CrcUnfold(0x9f787f65, data, 8);
    NothingLeft(0x1cf96d7c, data);
    CheckSteps();
  }

  lemma CheckSteps()
    ensures Xor(0, 0xffffffff) == 0xffffffff && Xor(0x1cf96d7c, 0xffffffff) == 0xe3069283
    ensures Byte(Xor(0xffffffff, 0x31)) == 0x6f0a661c
    ensures Byte(Xor(0x6f0a661c, 0x32)) == 0x8caa3b9f
    ensures Byte(Xor(0x8caa3b9f, 0x33)) == 0xef84d04d
    ensures Byte(Xor(0xef84d04d, 0x34)) == 0x09c50b11
    ensures Byte(Xor(0x09c50b11, 0x35)) == 0xe72edcca
    ensures Byte(Xor(0xe72edcca, 0x36)) == 0xbeca8e79
    ensures Byte(Xor(0xbeca8e79, 0x37)) == 0xedbd6815
    ensures Byte(Xor(0xedbd6815, 0x38)) == 0x9f787f65
    ensures Byte(Xor(0x9f787f65, 0x39)) == 0x1cf96d7c
  {
  }
}
