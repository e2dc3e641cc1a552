/** Little-endian fixed-width integers and varints, on bytes. */
module Coding {
  import opened Bits

  type Byte = b: nat | b < 256
  type Bytes = seq<Byte>

  const TWO32: nat := 0x1_0000_0000
  const TWO64: nat := 0x1_0000_0000_0000_0000

  // A read value and the position after it, or nothing.
  datatype Read = Bad | Got(value: nat, next: nat)

  // ----- Fixed width -----

  function EncodeFixed32(v: nat): (r: Bytes)
    requires v < TWO32
    ensures |r| == 4
  {
    [v % 256, v / 0x100 % 256, v / 0x1_0000 % 256, v / 0x100_0000]
  }

  function DecodeFixed32(data: Bytes, p: nat): (v: nat)
    requires p + 4 <= |data|
    ensures v < TWO32
  {
    var b0: nat, b1: nat, b2: nat, b3: nat := data[p], data[p + 1], data[p + 2], data[p + 3];
    b0 + 0x100 * b1 + 0x1_0000 * b2 + 0x100_0000 * b3
  }

  lemma FourBytes(v: nat)
    ensures v % 256 + 0x100 * (v / 0x100 % 256) + 0x1_0000 * (v / 0x1_0000 % 256) + 0x100_0000 * (v / 0x100_0000) == v
  {
    var a, b := v / 0x100, v / 0x1_0000;
    assert a / 0x100 == b && b / 0x100 == v / 0x100_0000;
  }

  function Bytes4(b: Bytes): nat
    requires |b| == 4
  {
    var b0: nat, b1: nat, b2: nat, b3: nat := b[0], b[1], b[2], b[3];
    b0 + 0x100 * b1 + 0x1_0000 * b2 + 0x100_0000 * b3
  }

  lemma FixedBytes(v: nat)
    requires v < TWO32
    ensures Bytes4(EncodeFixed32(v)) == v
  {
    FourBytes(v);
  }

  lemma FixedRoundTrip(data: Bytes, p: nat, v: nat)
    requires v < TWO32 && p + 4 <= |data| && data[p..p + 4] == EncodeFixed32(v)
    ensures DecodeFixed32(data, p) == v
  {
    hide EncodeFixed32;
    assert DecodeFixed32(data, p) == Bytes4(data[p..p + 4]);
    FixedBytes(v);
  }

  // ----- Varints -----

  // Seven bits to a byte, the lowest first; all bytes but the last have the top bit set.
  function Varint(v: nat): (r: Bytes)
    ensures |r| >= 1
  {
    if v < 128 then [v] else [128 + v % 128] + Varint(v / 128)
  }

  // v | 128, as a byte
  function More(v: nat): Byte {
    128 + v % 128
  }

  function EncodeVarint32(v: nat): Bytes
    requires v < TWO32
  {
    if v < 0x80 then [v]
    else if v < 0x4000 then [More(v), v / 0x80]
    else if v < 0x20_0000 then [More(v), More(v / 0x80), v / 0x4000]
    else if v < 0x1000_0000 then [More(v), More(v / 0x80), More(v / 0x4000), v / 0x20_0000]
    else [More(v), More(v / 0x80), More(v / 0x4000), More(v / 0x20_0000), v / 0x1000_0000]
  }

  // The unrolled encoder writes the varint.
  lemma UnrolledVarint(v: nat)
    requires v < TWO32
    ensures EncodeVarint32(v) == Varint(v)
    ensures |Varint(v)| <= 5
  {
    hide Varint, More;
    var a, b, c, d := v / 0x80, v / 0x4000, v / 0x20_0000, v / 0x1000_0000;
    assert a / 128 == b && b / 128 == c && c / 128 == d;
    OneByte(v);
    OneByte(a);
    OneByte(b);
    OneByte(c);
    OneByte(d);
  }

  lemma OneByte(v: nat)
    ensures Varint(v) == if v < 128 then [v] else [More(v)] + Varint(v / 128)
  {
  }

  method EncodeVarint64(v: nat) returns (r: Bytes)
    requires v < TWO64
    ensures r == Varint(v)
  {
    r := [];
    var rest := v;
    while rest >= 128
      invariant r + Varint(rest) == Varint(v)
    {
      assert Varint(rest) == [128 + rest % 128] + Varint(rest / 128);
      r := r + [128 + rest % 128];
      rest := rest / 128;
    }
    r := r + [rest];
  }

  // v << shift, before it is cut to the width of the result
  function Shl(v: nat, shift: nat): nat {
    v * Pow2(shift)
  }

  // The decoding loop from position p on: `result` has been read from the bytes before, `shift` is
  // where the next seven bits go.  The bits that are or-ed together do not overlap; what goes past
  // the width is lost.
  function ReadVarint(data: Bytes, p: nat, limit: nat, shift: nat, result: nat, maxShift: nat, width: nat): (r: Read)
    requires limit <= |data| && width > 0
    ensures r.Got? ==> p < r.next <= limit && r.value < width
    decreases limit - p
  {
    if shift > maxShift || p >= limit then Bad
    else if data[p] >= 128 then
      ReadVarint(data, p + 1, limit, shift + 7, (result + Shl(data[p] % 128, shift)) % width, maxShift, width)
    else Got((result + Shl(data[p], shift)) % width, p + 1)
  }

  // GetVarint32PtrFallback and GetVarint64Ptr
  method DecodeVarint(data: Bytes, start: nat, limit: nat, maxShift: nat, width: nat) returns (r: Read)
    requires limit <= |data| && width > 0
    ensures r == ReadVarint(data, start, limit, 0, 0, maxShift, width)
  {
    var p: nat, shift: nat, result: nat := start, 0, 0;
    while shift <= maxShift && p < limit
      invariant ReadVarint(data, start, limit, 0, 0, maxShift, width) ==
        ReadVarint(data, p, limit, shift, result, maxShift, width)
      decreases limit - p
    {
      var byte := data[p];
      p := p + 1;
      if byte >= 128 {
        result := (result + Shl(byte % 128, shift)) % width;
      } else {
        return Got((result + Shl(byte, shift)) % width, p);
      }
      shift := shift + 7;
    }
    r := Bad;
  }

  function ReadVarint32(data: Bytes, p: nat, limit: nat): (r: Read)
    requires limit <= |data|
    ensures r.Got? ==> p < r.next <= limit && r.value < TWO32
  {
    ReadVarint(data, p, limit, 0, 0, 28, TWO32)
  }

  function ReadVarint64(data: Bytes, p: nat, limit: nat): (r: Read)
    requires limit <= |data|
    ensures r.Got? ==> p < r.next <= limit && r.value < TWO64
  {
    ReadVarint(data, p, limit, 0, 0, 63, TWO64)
  }

  // GetVarint32Ptr: the one-byte case first.
  method GetVarint32(data: Bytes, p: nat, limit: nat) returns (r: Read)
    requires limit <= |data|
    ensures r == ReadVarint32(data, p, limit)
  {
    if p < limit && data[p] < 128 {
      assert Pow2(0) == 1;
      return Got(data[p], p + 1);
    }
    r := DecodeVarint(data, p, limit, 28, TWO32);
  }

  // ----- Round trip -----

  lemma {:induction false} Pow2Plus7(shift: nat)
    ensures Pow2(shift + 7) == 128 * Pow2(shift)
  {
    assert Pow2(shift + 7) == 2 * Pow2(shift + 6) && Pow2(shift + 6) == 2 * Pow2(shift + 5);
    assert Pow2(shift + 5) == 2 * Pow2(shift + 4) && Pow2(shift + 4) == 2 * Pow2(shift + 3);
    assert Pow2(shift + 3) == 2 * Pow2(shift + 2) && Pow2(shift + 2) == 2 * Pow2(shift + 1);
  }

  lemma {:induction false} Pow2Monotone(i: nat, j: nat)
    requires i <= j
    ensures Pow2(i) <= Pow2(j)
    decreases j
  {
    if i < j { Pow2Monotone(i, j - 1); }
  }

  // Reading back seven bits of v: what is left is v / 128, seven places further up.
  lemma SplitSeven(v: nat, shift: nat)
    ensures Shl(v, shift) == Shl(v % 128, shift) + Shl(v / 128, shift + 7)
  {
    Pow2Plus7(shift);
    var p, a, b := Pow2(shift), v % 128, v / 128;
    assert v == a + 128 * b;
    assert (a + 128 * b) * p == a * p + 128 * (b * p);
    assert b * (128 * p) == 128 * (b * p);
  }

  lemma ShlOfMany(v: nat, shift: nat)
    requires v >= 128
    ensures Shl(v, shift) >= Pow2(shift + 7)
  {
    Pow2Plus7(shift);
    var p := Pow2(shift);
    assert v * p == (v - 128) * p + 128 * p;
  }

  // The two readers: 5 bytes for 32 bits, 10 bytes for 64.
  ghost predicate IsReader(maxShift: nat, width: nat) {
    (maxShift == 28 && width == TWO32) || (maxShift == 63 && width == TWO64)
  }

  // A reader gets to the next byte of a number that is not finished.
  lemma NextShiftFits(v: nat, shift: nat, maxShift: nat, width: nat)
    requires IsReader(maxShift, width) && shift % 7 == 0 && v >= 128 && Shl(v, shift) < width
    ensures shift + 7 <= maxShift
  {
    hide Pow2, Shl;
    Widths();
    ShlOfMany(v, shift);
    if shift >= 28 { Pow2Monotone(32, shift + 7); }
    if shift >= 63 { Pow2Monotone(64, shift + 7); }
  }

  lemma Widths()
    ensures Pow2(32) == TWO32 && Pow2(64) == TWO64
  {
    assert Pow2(0) == 1;
    Pow2Plus7(0); Pow2Plus7(7); Pow2Plus7(14); Pow2Plus7(21);
    assert Pow2(28) == 0x1000_0000;
    assert Pow2(29) == 0x2000_0000 && Pow2(30) == 0x4000_0000 && Pow2(31) == 0x8000_0000;
    Pow2Plus7(32); Pow2Plus7(39); Pow2Plus7(46); Pow2Plus7(53);
    assert Pow2(60) == 0x1000_0000_0000_0000;
    assert Pow2(61) == 0x2000_0000_0000_0000 && Pow2(62) == 0x4000_0000_0000_0000 && Pow2(63) == 0x8000_0000_0000_0000;
  }

  lemma {:induction false} VarintReads(data: Bytes, p: nat, limit: nat, v: nat, shift: nat, result: nat, maxShift: nat,
                                       width: nat)
    requires IsReader(maxShift, width) && shift % 7 == 0 && shift <= maxShift
    requires result + Shl(v, shift) < width
    requires p + |Varint(v)| <= limit <= |data| && data[p..p + |Varint(v)|] == Varint(v)
    ensures ReadVarint(data, p, limit, shift, result, maxShift, width) == Got(result + Shl(v, shift), p + |Varint(v)|)
    decreases v
  {
    hide Shl;
    assert data[p] == Varint(v)[0] by { assert data[p] == data[p..p + |Varint(v)|][0]; }
    if v < 128 {
      SmallMod(result + Shl(v, shift), width);
    } else {
      var rest := Varint(v / 128);
      assert Varint(v) == [128 + v % 128] + rest;
      assert data[p + 1..p + 1 + |rest|] == data[p..p + |Varint(v)|][1..] == rest;
      SplitSeven(v, shift);
      NextShiftFits(v, shift, maxShift, width);
      var r := result + Shl(v % 128, shift);
      SmallMod(r, width);
      VarintReads(data, p + 1, limit, v / 128, shift + 7, r, maxShift, width);
    }
  }

  // Decoding inverts encoding, wherever the varint stands.
  lemma Varint32RoundTrip(data: Bytes, p: nat, limit: nat, v: nat)
    requires v < TWO32 && p + |Varint(v)| <= limit <= |data| && data[p..p + |Varint(v)|] == Varint(v)
    ensures ReadVarint32(data, p, limit) == Got(v, p + |Varint(v)|)
  {
    assert Pow2(0) == 1;
    VarintReads(data, p, limit, v, 0, 0, 28, TWO32);
  }

  lemma Varint64RoundTrip(data: Bytes, p: nat, limit: nat, v: nat)
    requires v < TWO64 && p + |Varint(v)| <= limit <= |data| && data[p..p + |Varint(v)|] == Varint(v)
    ensures ReadVarint64(data, p, limit) == Got(v, p + |Varint(v)|)
  {
    assert Pow2(0) == 1;
    VarintReads(data, p, limit, v, 0, 0, 63, TWO64);
  }

  // ----- What the bytes mean -----

  // A varint of n bytes stands at p: the top bit is set in all but the last.
  ghost predicate Stands(data: Bytes, p: nat, limit: nat, n: nat)
    requires limit <= |data|
  {
    && n >= 1 && p + n <= limit && data[p + n - 1] < 128
    && forall j | p <= j < p + n - 1 :: data[j] >= 128
  }

  // The sum of the first n groups of seven bits, each in its place.
  ghost function Groups(data: Bytes, p: nat, n: nat, shift: nat): nat
    requires p + n <= |data|
    decreases n
  {
    if n == 0 then 0 else data[p] % 128 * Pow2(shift) + Groups(data, p + 1, n - 1, shift + 7)
  }

  lemma AddThenCut(a: nat, b: nat, width: nat)
    requires width > 0
    ensures (a % width + b) % width == (a + b) % width
  {
    var q := a / width;
    assert a == width * q + a % width;
    var c := a % width + b;
    assert a + b == width * q + c;
    assert c == width * (c / width) + c % width;
    assert width * q + width * (c / width) == width * (q + c / width);
    ModUnique(a + b, width, q + c / width, c % width);
  }

  // A varint of n bytes stands at p, and its last group is still read.
  ghost predicate Readable(data: Bytes, p: nat, limit: nat, n: nat, shift: nat, maxShift: nat)
    requires limit <= |data|
  {
    Stands(data, p, limit, n) && shift + 7 * (n - 1) <= maxShift
  }

  ghost predicate ReadsAs(r: Read, data: Bytes, p: nat, limit: nat, shift: nat, result: nat, maxShift: nat, width: nat)
    requires limit <= |data| && width > 0
  {
    && (forall n: nat | Readable(data, p, limit, n, shift, maxShift) ::
          r == Got((result + Groups(data, p, n, shift)) % width, p + n))
    && (r.Got? ==> exists n: nat :: Readable(data, p, limit, n, shift, maxShift))
  }

  lemma ReadsMore(r: Read, data: Bytes, p: nat, limit: nat, shift: nat, result: nat, maxShift: nat, width: nat)
    requires p < limit <= |data| && width > 0 && data[p] >= 128
    requires ReadsAs(r, data, p + 1, limit, shift + 7, (result + Shl(data[p] % 128, shift)) % width, maxShift, width)
    ensures ReadsAs(r, data, p, limit, shift, result, maxShift, width)
  {
    hide Groups, Shl;
    forall n: nat | Readable(data, p, limit, n, shift, maxShift)
      ensures r == Got((result + Groups(data, p, n, shift)) % width, p + n)
    {
      OneGroupMore(data, p, limit, n, shift, result, maxShift, width);
    }
    if r.Got? {
      var n: nat :| Readable(data, p + 1, limit, n, shift + 7, maxShift);
      StandsNext(data, p, limit, n);
      assert Readable(data, p, limit, n + 1, shift, maxShift);
    }
  }

  lemma OneGroupMore(data: Bytes, p: nat, limit: nat, n: nat, shift: nat, result: nat, maxShift: nat, width: nat)
    requires p < limit <= |data| && width > 0 && data[p] >= 128
    requires Readable(data, p, limit, n, shift, maxShift)
    ensures n > 1 && Readable(data, p + 1, limit, n - 1, shift + 7, maxShift)
    ensures (result + Groups(data, p, n, shift)) % width ==
      ((result + Shl(data[p] % 128, shift)) % width + Groups(data, p + 1, n - 1, shift + 7)) % width
  {
    hide Groups, Shl;
    StandsNext(data, p, limit, n - 1);
    SumOfGroups(data, p, n, shift, result, width);
  }

  lemma SumOfGroups(data: Bytes, p: nat, n: nat, shift: nat, result: nat, width: nat)
    requires n > 1 && p + n <= |data| && width > 0
    ensures (result + Groups(data, p, n, shift)) % width ==
      ((result + Shl(data[p] % 128, shift)) % width + Groups(data, p + 1, n - 1, shift + 7)) % width
  {
    hide Groups, Shl;
    GroupsNext(data, p, n, shift);
    var a, g := result + Shl(data[p] % 128, shift), Groups(data, p + 1, n - 1, shift + 7);
    assert result + Groups(data, p, n, shift) == a + g;
    AddThenCut(a, g, width);
  }

  lemma ReadsLast(data: Bytes, p: nat, limit: nat, shift: nat, result: nat, maxShift: nat, width: nat)
    requires p < limit <= |data| && width > 0 && data[p] < 128 && shift <= maxShift
    ensures ReadsAs(Got((result + Shl(data[p], shift)) % width, p + 1), data, p, limit, shift, result, maxShift, width)
  {
    hide Groups, Shl;
    assert Readable(data, p, limit, 1, shift, maxShift);
    GroupsNext(data, p, 1, shift);
    GroupsNone(data, p + 1, shift + 7);
  }

  // The reader accepts exactly the varints whose last group starts at maxShift at most, and returns the
  // sum of their groups, cut to the width.
  lemma {:induction false} ReadsGroups(data: Bytes, p: nat, limit: nat, shift: nat, result: nat, maxShift: nat,
                                       width: nat)
    requires limit <= |data| && width > 0
    ensures ReadsAs(ReadVarint(data, p, limit, shift, result, maxShift, width),
                    data, p, limit, shift, result, maxShift, width)
    decreases limit - p
  {
    hide Groups, Shl, ReadsAs;
    if p < limit && shift <= maxShift {
      if data[p] >= 128 {
        var next := (result + Shl(data[p] % 128, shift)) % width;
        ReadsGroups(data, p + 1, limit, shift + 7, next, maxShift, width);
        ReadsMore(ReadVarint(data, p + 1, limit, shift + 7, next, maxShift, width),
                  data, p, limit, shift, result, maxShift, width);
      } else {
        ReadsLast(data, p, limit, shift, result, maxShift, width);
      }
    } else {
      NothingReadable(data, p, limit, shift, result, maxShift, width);
    }
  }

  lemma NothingReadable(data: Bytes, p: nat, limit: nat, shift: nat, result: nat, maxShift: nat, width: nat)
    requires limit <= |data| && width > 0 && (p >= limit || shift > maxShift)
    ensures ReadsAs(Bad, data, p, limit, shift, result, maxShift, width)
  {
  }

  lemma StandsNext(data: Bytes, p: nat, limit: nat, n: nat)
    requires limit <= |data| && p < limit && data[p] >= 128
    ensures Stands(data, p + 1, limit, n) <==> Stands(data, p, limit, n + 1)
    ensures !Stands(data, p, limit, 1)
  {
  }

  lemma GroupsNext(data: Bytes, p: nat, n: nat, shift: nat)
    requires 1 <= n && p + n <= |data|
    ensures Groups(data, p, n, shift) == Shl(data[p] % 128, shift) + Groups(data, p + 1, n - 1, shift + 7)
  {
  }

  lemma GroupsNone(data: Bytes, p: nat, shift: nat)
    requires p <= |data|
    ensures Groups(data, p, 0, shift) == 0
  {
  }

  // The little-endian order, by one number.
  lemma LowestFirst()
    ensures EncodeFixed32(0x0403_0201) == [1, 2, 3, 4] && Varint(0x81) == [0x81, 1]
  {
    assert Varint(1) == [1];
  }
}
