/**
 Fixed-width and variable-width integers and length-prefixed strings, as bytes.
 Shifts and masks are written as arithmetic on non-negative integers.
 */
module Coding {
  import opened Keys

  const TWO32: nat := 0x1_0000_0000
  const TWO64: nat := 0x1_0000_0000_0000_0000

  type u32 = x: int | 0 <= x < 0x1_0000_0000
  type u64 = x: int | 0 <= x < 0x1_0000_0000_0000_0000

  function Fixed32(v: u32): (b: Bytes)
    ensures |b| == 4
  {
    [v % 256, v / 256 % 256, v / 65536 % 256, v / 16777216]
  }

  function DecodeFixed32(b: Bytes): (v: u32)
    requires |b| >= 4
  {
    b[0] as int + b[1] as int * 256 + b[2] as int * 65536 + b[3] as int * 16777216
  }

  lemma Fixed32RoundTrip(v: u32, tail: Bytes)
    ensures DecodeFixed32(Fixed32(v) + tail) == v
  {
    var b := Fixed32(v) + tail;
    assert b[0] == v % 256 && b[1] == v / 256 % 256 && b[2] == v / 65536 % 256 && b[3] == v / 16777216;
    assert v / 65536 == v / 256 / 256 && v / 16777216 == v / 65536 / 256;
  }

  lemma Fixed32Of(b: Bytes)
    requires |b| >= 4
    ensures DecodeFixed32(b) < TWO32 && Fixed32(DecodeFixed32(b)) == b[..4]
  {
    var v := DecodeFixed32(b);
    var b0: nat, b1: nat, b2: nat, b3: nat := b[0], b[1], b[2], b[3];
    assert v == b0 + 256 * (b1 + 256 * (b2 + 256 * b3));
    assert v % 256 == b0 && v / 256 == b1 + 256 * (b2 + 256 * b3);
    assert v / 65536 == b2 + 256 * b3 && v / 16777216 == b3;
  }

  function Fixed64(v: u64): (b: Bytes)
    ensures |b| == 8
  {
    Fixed32(v % TWO32) + Fixed32(v / TWO32)
  }

  function DecodeFixed64(b: Bytes): (v: u64)
    requires |b| >= 8
  {
    DecodeFixed32(b) + DecodeFixed32(b[4..]) * TWO32
  }

  lemma Fixed64RoundTrip(v: u64, tail: Bytes)
    ensures DecodeFixed64(Fixed64(v) + tail) == v
  {
    var lo, hi := Fixed32(v % TWO32), Fixed32(v / TWO32);
    assert Fixed64(v) + tail == lo + (hi + tail);
    assert (Fixed64(v) + tail)[4..] == hi + tail;
    Fixed32RoundTrip(v % TWO32, hi + tail);
    Fixed32RoundTrip(v / TWO32, tail);
  }

  lemma Fixed64Of(b: Bytes)
    requires |b| >= 8
    ensures Fixed64(DecodeFixed64(b)) == b[..8]
  {
    hide Fixed32, DecodeFixed32;
    Fixed32Of(b);
    Fixed32Of(b[4..]);
    var v := DecodeFixed64(b);
    assert v % TWO32 == DecodeFixed32(b) && v / TWO32 == DecodeFixed32(b[4..]);
  }

  /** Base-128 digits, low first, with the high bit set on all but the last. */
  function Varint(v: nat): (b: Bytes)
    ensures |b| > 0
  {
    if v < 128 then [v] else [v % 128 + 128] + Varint(v / 128)
  }

  /** The 64-bit encoder's loop. */
  method EncodeVarint64(value: u64) returns (dst: Bytes)
    ensures dst == Varint(value)
  {
    var v: nat := value;
    dst := [];
    while v >= 128
      invariant dst + Varint(v) == Varint(value)
    {
      assert dst + [v % 128 + 128] + Varint(v / 128) == dst + Varint(v);
      dst := dst + [v % 128 + 128];
      v := v / 128;
    }
    dst := dst + [v];
  }

  /** The 32-bit encoder's unrolled form. */
  function Varint32(v: u32): Bytes
  {
    if v < 0x80 then [v]
    else if v < 0x4000 then [v % 128 + 128, v / 0x80]
    else if v < 0x20_0000 then [v % 128 + 128, v / 0x80 % 128 + 128, v / 0x4000]
    else if v < 0x1000_0000 then [v % 128 + 128, v / 0x80 % 128 + 128, v / 0x4000 % 128 + 128, v / 0x20_0000]
    else [v % 128 + 128, v / 0x80 % 128 + 128, v / 0x4000 % 128 + 128, v / 0x20_0000 % 128 + 128, v / 0x1000_0000]
  }

  /** The two encoders agree on every 32-bit value. */
  lemma Varint32IsVarint(v: u32)
    ensures Varint32(v) == Varint(v)
  {
    if v >= 0x80 {
      assert Varint(v) == [v % 128 + 128] + Varint(v / 0x80);
    }
    if v >= 0x4000 {
      assert Varint(v / 0x80) == [v / 0x80 % 128 + 128] + Varint(v / 0x4000);
    }
    if v >= 0x20_0000 {
      assert Varint(v / 0x4000) == [v / 0x4000 % 128 + 128] + Varint(v / 0x20_0000);
    }
    if v >= 0x1000_0000 {
      assert Varint(v / 0x20_0000) == [v / 0x20_0000 % 128 + 128] + Varint(v / 0x1000_0000);
    }
  }

  /** A decoded number and the number of bytes it took. */
  datatype Parsed = Parsed(value: nat, size: nat)

  /** Reads a varint of at most `n` bytes, without bounding the value. */
  function ParseVarint(b: Bytes, n: nat): (r: Option<Parsed>)
    ensures r.Some? ==> 1 <= r.value.size <= |b| && r.value.size <= n
  {
    if n == 0 || b == [] then None
    else if b[0] < 128 then Some(Parsed(b[0], 1))
    else
      var r := ParseVarint(b[1..], n - 1);
      if r.None? then None else Some(Parsed(b[0] - 128 + 128 * r.value.value, r.value.size + 1))
  }

  function Pow128(i: nat): (p: nat)
    ensures p > 0
  {
    if i == 0 then 1 else 128 * Pow128(i - 1)
  }

  /** Decoding undoes encoding whenever the value fits the number of bytes. */
  lemma {:induction false} VarintRoundTrip(v: nat, n: nat, tail: Bytes)
    requires n > 0 && v < Pow128(n)
    ensures ParseVarint(Varint(v) + tail, n) == Some(Parsed(v, |Varint(v)|))
  {
    if v < 128 {
      assert (Varint(v) + tail)[0] == v;
    } else {
      assert n > 1 && v / 128 < Pow128(n - 1);
      VarintRoundTrip(v / 128, n - 1, tail);
      assert (Varint(v) + tail)[0] == v % 128 + 128;
      assert (Varint(v) + tail)[1..] == Varint(v / 128) + tail;
    }
  }

  /**
   The decoding loop: at most `maxBytes` bytes. Only the last digit can reach past the width, so
   the bits dropped by its shift are dropped here in one reduction.
   */
  method GetVarint(input: Bytes, maxBytes: nat, modulus: nat) returns (r: Option<Parsed>)
    requires modulus > 0
    ensures r.Some? == ParseVarint(input, maxBytes).Some?
    ensures r.Some? ==> r.value.size == ParseVarint(input, maxBytes).value.size
                        && r.value.value == ParseVarint(input, maxBytes).value.value % modulus
  {
    var result: nat := 0;
    var scale: nat := 1;
    var i := 0;
    while i < maxBytes && i < |input|
      invariant 0 <= i <= maxBytes && i <= |input|
      invariant ParseVarint(input, maxBytes) == Resume(result, scale, i, ParseVarint(input[i..], maxBytes - i))
    {
      var x: nat := input[i];
      ResumeStep(result, scale, i, input[i..], maxBytes - i);
      assert input[i..][1..] == input[i + 1..];
      if x >= 128 {
        result := result + (x - 128) * scale;
        scale := 128 * scale;
      } else {
        return Some(Parsed((result + x * scale) % modulus, i + 1));
      }
      i := i + 1;
    }
    r := None;
  }

  /** The outcome of a decoding that already holds `result` when the rest decodes to `rest`. */
  function Resume(result: nat, scale: nat, i: nat, rest: Option<Parsed>): Option<Parsed>
  {
    if rest.None? then None else Some(Parsed(result + rest.value.value * scale, i + rest.value.size))
  }

  lemma ResumeStep(result: nat, scale: nat, i: nat, b: Bytes, n: nat)
    requires b != [] && n > 0
    ensures (b[0] - 128) * scale >= 0 || b[0] < 128
    ensures b[0] >= 128 ==>
              Resume(result, scale, i, ParseVarint(b, n)) ==
              Resume(result + (b[0] - 128) * scale, 128 * scale, i + 1, ParseVarint(b[1..], n - 1))
    ensures b[0] < 128 ==> b[0] * scale >= 0
    ensures b[0] < 128 ==>
              Resume(result, scale, i, ParseVarint(b, n)) == Some(Parsed(result + b[0] * scale, i + 1))
  {
    var r := ParseVarint(b[1..], n - 1);
    if b[0] >= 128 && r.Some? {
      Distribute(result, scale, b[0] - 128, r.value.value);
    }
  }

  lemma Distribute(acc: nat, scale: nat, d: nat, v: nat)
    ensures acc + (d + 128 * v) * scale == acc + d * scale + v * (128 * scale)
  {
    assert (d + 128 * v) * scale == d * scale + (128 * v) * scale;
    assert (128 * v) * scale == v * (128 * scale);
  }

  method GetVarint32(input: Bytes) returns (r: Option<Parsed>)
    ensures forall v: u32, tail :: input == Varint(v) + tail ==> r == Some(Parsed(v, |Varint(v)|))
    ensures r.Some? == ParseVarint(input, 5).Some?
    ensures r.Some? ==> r.value == Parsed(ParseVarint(input, 5).value.value % TWO32, ParseVarint(input, 5).value.size)
  {
    r := GetVarint(input, 5, TWO32);
    forall v: u32, tail | input == Varint(v) + tail
      ensures r == Some(Parsed(v, |Varint(v)|))
    {
      Powers();
      VarintRoundTrip(v, 5, tail);
    }
  }

  method GetVarint64(input: Bytes) returns (r: Option<Parsed>)
    ensures forall v: u64, tail :: input == Varint(v) + tail ==> r == Some(Parsed(v, |Varint(v)|))
    ensures r.Some? == ParseVarint(input, 10).Some?
    ensures r.Some? ==> r.value == Parsed(ParseVarint(input, 10).value.value % TWO64, ParseVarint(input, 10).value.size)
  {
    r := GetVarint(input, 10, TWO64);
    forall v: u64, tail | input == Varint(v) + tail
      ensures r == Some(Parsed(v, |Varint(v)|))
    {
      Powers();
      VarintRoundTrip(v, 10, tail);
    }
  }

  lemma Powers()
    ensures Pow128(5) == 0x8_0000_0000 && Pow128(10) == 0x40_0000_0000_0000_0000
  {
    assert Pow128(1) == 128;
    assert Pow128(2) == 0x4000;
    assert Pow128(3) == 0x20_0000;
    assert Pow128(4) == 0x1000_0000;
    assert Pow128(6) == 0x400_0000_0000;
    assert Pow128(7) == 0x2_0000_0000_0000;
    assert Pow128(8) == 0x100_0000_0000_0000;
    assert Pow128(9) == 0x8000_0000_0000_0000;
  }

  /** What a 32-bit varint read yields, and what follows it. */
  function ReadVarint32(b: Bytes): (r: Option<Parsed>)
    ensures r.Some? ==> 1 <= r.value.size <= |b| && r.value.value < TWO32
  {
    var r := ParseVarint(b, 5);
    if r.None? then None else Some(Parsed(r.value.value % TWO32, r.value.size))
  }

  function ReadVarint64(b: Bytes): (r: Option<Parsed>)
    ensures r.Some? ==> 1 <= r.value.size <= |b| && r.value.value < TWO64
  {
    var r := ParseVarint(b, 10);
    if r.None? then None else Some(Parsed(r.value.value % TWO64, r.value.size))
  }

  lemma ReadVarint32RoundTrip(v: u32, tail: Bytes)
    ensures ReadVarint32(Varint(v) + tail) == Some(Parsed(v, |Varint(v)|))
  {
    Powers();
    VarintRoundTrip(v, 5, tail);
  }

  lemma ReadVarint64RoundTrip(v: u64, tail: Bytes)
    ensures ReadVarint64(Varint(v) + tail) == Some(Parsed(v, |Varint(v)|))
  {
    Powers();
    VarintRoundTrip(v, 10, tail);
  }

  function LengthPrefixed(s: Bytes): Bytes {
    Varint(|s|) + s
  }

  // Reading: each reader consumes a prefix of the input

  datatype Read<T> = Bad | Taken(value: T, rest: Bytes)

  function Get32(b: Bytes): (r: Read<u32>)
    ensures r.Taken? ==> |r.rest| < |b|
  {
    var p := ReadVarint32(b);
    if p.None? then Bad else Taken(p.value.value, b[p.value.size..])
  }

  function Get64(b: Bytes): (r: Read<u64>)
    ensures r.Taken? ==> |r.rest| < |b|
  {
    var p := ReadVarint64(b);
    if p.None? then Bad else Taken(p.value.value, b[p.value.size..])
  }

  function GetSlice(b: Bytes): (r: Read<Bytes>)
    ensures r.Taken? ==> |r.rest| < |b|
  {
    var n := Get32(b);
    if n.Bad? || |n.rest| < n.value then Bad else Taken(n.rest[..n.value], n.rest[n.value..])
  }

  lemma SliceBack(s: Bytes, tail: Bytes)
    requires |s| < TWO32
    ensures GetSlice(LengthPrefixed(s) + tail) == Taken(s, tail)
  {
    ReadVarint32RoundTrip(|s|, s + tail);
    hide Varint, ReadVarint32;
    Peel(Varint(|s|), s, tail);
    assert (s + tail)[..|s|] == s && (s + tail)[|s|..] == tail;
  }

  lemma Peel(a: Bytes, b: Bytes, tail: Bytes)
    ensures (a + b) + tail == a + (b + tail) && (a + (b + tail))[|a|..] == b + tail
  {
  }

  lemma Back64(v: u64, tail: Bytes)
    ensures Get64(Varint(v) + tail) == Taken(v, tail)
  {
    ReadVarint64RoundTrip(v, tail);
    hide Varint, ReadVarint64;
    assert (Varint(v) + tail)[|Varint(v)|..] == tail;
  }

  lemma Back32(v: u32, tail: Bytes)
    ensures Get32(Varint(v) + tail) == Taken(v, tail)
  {
    ReadVarint32RoundTrip(v, tail);
    hide Varint, ReadVarint32;
    assert (Varint(v) + tail)[|Varint(v)|..] == tail;
  }

  // Encodings cut short

  /** Of a number cut short nothing is read. */
  lemma {:induction false} VarintCut(b: Bytes, v: nat, n: nat)
    requires b < Varint(v)
    ensures ParseVarint(b, n).None?
    decreases v
  {
    if v >= 128 && b != [] && n > 0 {
      assert Varint(v)[1..] == Varint(v / 128);
      VarintCut(b[1..], v / 128, n - 1);
    }
  }

  lemma NumberCut(b: Bytes, v: nat)
    requires b < Varint(v)
    ensures Get32(b).Bad? && Get64(b).Bad?
  {
    VarintCut(b, v, 5);
    VarintCut(b, v, 10);
  }

  /** A cut falls into the first part, or leaves that whole and falls into the second. */
  lemma CutWhere(b: Bytes, x: Bytes, y: Bytes)
    ensures b < x + y <==> b < x || (x <= b && b[|x|..] < y)
    ensures x <= b ==> b == x + b[|x|..]
  {
    if x <= b && b < x + y {
      assert b[|x|..] == (x + y)[|x|..|b|] == y[..|b| - |x|];
    }
    assert b < x + y ==> forall i :: 0 <= i < |b| ==> b[i] == (x + y)[i];
  }

  lemma SliceCut(b: Bytes, s: Bytes)
    requires b < LengthPrefixed(s) && |s| < TWO32
    ensures GetSlice(b).Bad?
  {
    hide Varint, Get32;
    var n := Varint(|s|);
    CutWhere(b, n, s);
    if b < n {
      NumberCut(b, |s|);
    } else {
      Back32(|s|, b[|n|..]);
    }
  }

  lemma NumberedCut(b: Bytes, v: u64, y: Bytes)
    requires b < Varint(v) + y
    ensures Get64(b).Bad? || Get64(b).rest < y
  {
    hide Varint, Get64;
    CutWhere(b, Varint(v), y);
    if b < Varint(v) {
      NumberCut(b, v);
    } else {
      Back64(v, b[|Varint(v)|..]);
    }
  }

  lemma SlicedCut(b: Bytes, s: Bytes, y: Bytes)
    requires b < LengthPrefixed(s) + y && |s| < TWO32
    ensures GetSlice(b).Bad? || GetSlice(b).rest < y
  {
    hide LengthPrefixed, GetSlice;
    CutWhere(b, LengthPrefixed(s), y);
    if b < LengthPrefixed(s) {
      SliceCut(b, s);
    } else {
      SliceBack(s, b[|LengthPrefixed(s)|..]);
    }
  }
}
