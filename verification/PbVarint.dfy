/**
 The integers of Protocol Buffers: base-128 varints read as 64 or as 32 bits, and ZigZag.
 */
module PbVarint {
  import opened Keys
  import opened Coding

  /** A digit in its place. */
  function Scaled(v: nat, i: nat): nat {
    v * Pow128(i)
  }

  /** Reads a varint of at most ten bytes; bits beyond 64 are lost. */
  function Dec64(b: Bytes): (r: Option<Parsed>)
    ensures r.Some? ==> 1 <= r.value.size <= |b| && r.value.value < TWO64
  {
    ReadVarint64(b)
  }

  /** The bit position of byte `i`, kept in eight bits. */
  function BitPos(i: nat): nat {
    7 * i % 256
  }

  /** Bitwise or of the low `bits` bits. */
  function Or(a: nat, b: nat, bits: nat): (r: nat) {
    if bits == 0 then 0 else 2 * Or(a / 2, b / 2, bits - 1) + if a % 2 == 1 || b % 2 == 1 then 1 else 0
  }

  lemma {:induction false} OrFits(a: nat, b: nat, bits: nat, limit: nat)
    requires limit == Power(bits)
    ensures Or(a, b, bits) < limit
    decreases bits
  {
    if bits > 0 {
      OrFits(a / 2, b / 2, bits - 1, Power(bits - 1));
    }
  }

  function Power(n: nat): (r: nat)
    ensures r > 0
  {
    if n == 0 then 1 else 2 * Power(n - 1)
  }

  lemma PowerIs()
    ensures Power(32) == TWO32 && Power(3) == 8
  {
    assert Power(8) == 256;
    assert Power(16) == 0x1_0000;
    assert Power(24) == 0x100_0000;
  }

  function Or32(a: nat, b: nat): (r: u32) {
    PowerIs();
    OrFits(a, b, 32, TWO32);
    Or(a, b, 32)
  }

  /**
   What byte `i` adds to the 32 bits so far. Its low seven bits go in place `i`, above those read
   so far; beyond the fifth byte only zeros or the sign extension of a negative number may follow.
   From the 38th byte on the bit position has wrapped around, and bits come in again from below.
   */
  function Absorbed(x: byte, i: nat, result: u32): Option<u32> {
    var low := x % 128;
    var sign := if BitPos(i) < 63 then 255 else 1;
    if i < 5 then Some((result + Scaled(low, i)) % TWO32)
    else if BitPos(i) < 32 then Some(Or32(result, low * Power(BitPos(i)) % TWO32))
    else if low != 0 && (result < 0x8000_0000 || x != sign) then None
    else Some(result)
  }

  /** Reads the bytes after the first of a varint. A fifth byte that ends the number may hold only four bits. */
  function Dec32Rest(b: Bytes, i: nat, result: u32): (r: Option<Parsed>)
    requires i >= 1
    ensures r.Some? ==> 1 <= r.value.size <= |b| && r.value.value < TWO32
    decreases |b|
  {
    if b == [] then None
    else
      var next := Absorbed(b[0], i, result);
      if next.None? then None
      else if b[0] >= 128 then Onwards(Dec32Rest(b[1..], i + 1, next.value), 1)
      else if BitPos(i) == 28 && b[0] >= 16 then None
      else Some(Parsed(next.value, 1))
  }

  function Onwards(r: Option<Parsed>, i: nat): Option<Parsed> {
    if r.None? then None else Some(Parsed(r.value.value, r.value.size + i))
  }

  function Dec32(b: Bytes): (r: Option<Parsed>)
    ensures r.Some? ==> 1 <= r.value.size <= |b| && r.value.value < TWO32
  {
    if b == [] then None
    else if b[0] < 128 then Some(Parsed(b[0], 1))
    else
      Onwards(Dec32Rest(b[1..], 1, b[0] - 128), 1)
  }

  /** The loop of the 32-bit reader. */
  method DecodeVarint32(b: Bytes) returns (r: Option<Parsed>)
    ensures r == Dec32(b)
  {
    if b == [] {
      return None;
    }
    if b[0] < 128 {
      return Some(Parsed(b[0], 1));
    }
    var i: nat, result: u32 := 1, b[0] - 128;
    hide Absorbed;
    while true
      invariant 1 <= i <= |b| && Dec32(b) == Onwards(Dec32Rest(b[i..], i, result), i)
      decreases |b| - i
    {
      if i == |b| {
        return None;
      }
      var x := b[i];
      assert b[i..][1..] == b[i + 1..];
      var next := Absorbed(x, i, result);
      if next.None? {
        return None;
      }
      result := next.value;
      i := i + 1;
      if x < 128 {
        if BitPos(i - 1) == 28 && x >= 16 {
          return None;
        }
        return Some(Parsed(result, i));
      }
    }
  }

  // What the 32-bit reader's numbers mean

  /** All bits of `x` are among those of `v`. */
  predicate Within(x: nat, v: nat) {
    Or32(v, x) == v
  }

  /**
   Byte `j` of a varint whose first byte has place `i`: if its bit position has wrapped around, it
   brings in no bit that `v` lacks.
   */
  predicate HarmlessByte(b: Bytes, i: nat, v: nat, j: nat)
    requires j < |b|
  {
    i + j >= 5 && BitPos(i + j) < 32 ==> Within(b[j] % 128 * Power(BitPos(i + j)) % TWO32, v)
  }

  predicate Harmless(b: Bytes, i: nat, n: nat, v: nat)
    requires n <= |b|
  {
    forall j :: 0 <= j < n ==> HarmlessByte(b, i, v, j)
  }

  lemma HarmlessCons(b: Bytes, i: nat, n: nat, v: nat)
    requires 0 < n <= |b|
    ensures Harmless(b, i, n, v) <==> HarmlessByte(b, i, v, 0) && Harmless(b[1..], i + 1, n - 1, v)
  {
    hide HarmlessByte;
    var rest, next := b[1..], i + 1;
    if Harmless(b, i, n, v) {
      forall j | 0 <= j < n - 1
        ensures HarmlessByte(rest, next, v, j)
      {
        NextHarmless(b, i, v, j);
        assert HarmlessByte(b, i, v, j + 1);
      }
    }
    if HarmlessByte(b, i, v, 0) && Harmless(b[1..], i + 1, n - 1, v) {
      forall j | 0 <= j < n
        ensures HarmlessByte(b, i, v, j)
      {
        if j > 0 {
          NextHarmless(b, i, v, j - 1);
          assert HarmlessByte(rest, next, v, j - 1);
        }
      }
    }
  }

  lemma NextHarmless(b: Bytes, i: nat, v: nat, j: nat)
    requires j + 1 < |b|
    ensures HarmlessByte(b[1..], i + 1, v, j) <==> HarmlessByte(b, i, v, j + 1)
  {
    hide Within, Power, BitPos;
    assert b[1..][j] == b[j + 1];
  }

  lemma {:induction false} OrGrows(a: nat, b: nat, bits: nat)
    requires a < Power(bits)
    ensures Or(a, b, bits) >= a
    decreases bits
  {
    if bits > 0 {
      OrGrows(a / 2, b / 2, bits - 1);
    }
  }

  lemma Or32Grows(a: u32, b: nat)
    ensures Or32(a, b) >= a
  {
    PowerIs();
    OrGrows(a, b, 32);
  }

  /**
   From the sixth byte on the number so far only grows, and it stays as it is exactly when no
   byte brings in a bit that it lacks.
   */
  lemma {:induction false} TailExact(b: Bytes, i: nat, result: u32)
    requires i >= 5 && Dec32Rest(b, i, result).Some?
    ensures ParseVarint(b, |b|).Some? && ParseVarint(b, |b|).value.size == Dec32Rest(b, i, result).value.size
    ensures Dec32Rest(b, i, result).value.value >= result
    ensures Dec32Rest(b, i, result).value.value == result
       <==> Harmless(b, i, Dec32Rest(b, i, result).value.size, result)
    decreases |b|
  {
    var n := Dec32Rest(b, i, result).value.size;
    var next := Absorbed(b[0], i, result).value;
    TailByte(b, i, result);
    hide Or32, Absorbed, HarmlessByte, BitPos, Power, Harmless;
    HarmlessCons(b, i, n, result);
    if b[0] >= 128 {
      assert |b[1..]| == |b| - 1;
      TailExact(b[1..], i + 1, next);
    } else {
      NothingHarms(b[1..], i + 1, result);
    }
  }

  lemma TailByte(b: Bytes, i: nat, result: u32)
    requires i >= 5 && b != [] && Absorbed(b[0], i, result).Some?
    ensures Absorbed(b[0], i, result).value >= result
    ensures Absorbed(b[0], i, result).value == result <==> HarmlessByte(b, i, result, 0)
  {
    hide Or32, Power;
    if BitPos(i) < 32 {
      Or32Grows(result, b[0] % 128 * Power(BitPos(i)) % TWO32);
    }
  }

  lemma NothingHarms(b: Bytes, i: nat, v: nat)
    ensures Harmless(b, i, 0, v)
  {
  }

  lemma ModShift(a: nat, c: nat)
    ensures (a % TWO32 + c) % TWO32 == (a + c) % TWO32
  {
  }

  lemma Shifts(low: nat, rest: nat, p: nat)
    ensures (low + 128 * rest) * p == low * p + rest * (128 * p)
  {
  }

  lemma EarlyByte(x: byte, i: nat, result: u32)
    requires 1 <= i <= 4
    ensures Absorbed(x, i, result) == Some((result + Scaled(x % 128, i)) % TWO32) && (BitPos(i) == 28 <==> i == 4)
  {
    hide Scaled, Or32;
  }

  lemma EarlyIsHarmless(b: Bytes, i: nat, v: nat)
    requires i <= 4 && b != []
    ensures HarmlessByte(b, i, v, 0)
  {
  }

  /** The low 32 bits of the bytes' number, put behind the bits so far. */
  function Low32(result: nat, v: nat, i: nat): u32 {
    (result + Scaled(v, i)) % TWO32
  }

  /** Among the first five bytes: what is read, and when it is right. */
  lemma {:induction false} HeadExact(b: Bytes, i: nat, result: u32)
    requires 1 <= i <= 4 && Dec32Rest(b, i, result).Some?
    ensures ParseVarint(b, |b|).Some?
    ensures var w, v := Dec32Rest(b, i, result).value, ParseVarint(b, |b|).value;
            var low := Low32(result, v.value, i);
            w.size == v.size && (w.value == low <==> Harmless(b, i, w.size, low))
    decreases |b|
  {
    hide Scaled, Absorbed, BitPos, Harmless, HarmlessByte;
    EarlyByte(b[0], i, result);
    var n := Dec32Rest(b, i, result).value.size;
    if b[0] >= 128 {
      var next := (result + Scaled(b[0] % 128, i)) % TWO32;
      if i < 4 {
        HeadExact(b[1..], i + 1, next);
        StepValue(result, b[0] % 128, ParseVarint(b[1..], |b| - 1).value.value, i);
      } else {
        TailExact(b[1..], 5, next);
        LastValue(result, b[0] % 128, ParseVarint(b[1..], |b| - 1).value.value);
      }
    }
    var low := Low32(result, ParseVarint(b, |b|).value.value, i);
    EarlyIsHarmless(b, i, low);
    HarmlessCons(b, i, n, low);
    NothingHarms(b[1..], i + 1, low);
  }

  lemma StepValue(result: nat, low: nat, rest: nat, i: nat)
    ensures Low32((result + Scaled(low, i)) % TWO32, rest, i + 1) == Low32(result, low + 128 * rest, i)
  {
    assert Pow128(i + 1) == 128 * Pow128(i);
    hide Pow128;
    Shifts(low, rest, Pow128(i));
    ModShift(result + Scaled(low, i), rest * (128 * Pow128(i)));
  }

  /** From the sixth byte on nothing belongs to the low 32 bits. */
  lemma LastValue(result: nat, low: nat, rest: nat)
    ensures (result + Scaled(low, 4)) % TWO32 == Low32(result, low + 128 * rest, 4)
  {
    Powers();
    assert Pow128(4) == 0x1000_0000;
    hide Pow128;
    Shifts(low, rest, 0x1000_0000);
    Absorb(result + low * 0x1000_0000, rest * 8);
  }

  lemma Absorb(x: nat, q: nat)
    ensures (x + q * TWO32) % TWO32 == x % TWO32
  {
  }

  /**
   Whatever the 32-bit reader accepts is a varint of the same bytes. It gives the low 32 bits of
   the number exactly when no byte whose bit position has wrapped around brings in a bit that
   these 32 lack.
   */
  lemma Reads32Exactly(b: Bytes)
    requires Dec32(b).Some?
    ensures ParseVarint(b, |b|).Some? && ParseVarint(b, |b|).value.size == Dec32(b).value.size
    ensures var low := ParseVarint(b, |b|).value.value % TWO32;
            Dec32(b).value.value == low <==> Harmless(b, 0, Dec32(b).value.size, low)
  {
    hide Dec32Rest, Harmless, HarmlessByte;
    var n := Dec32(b).value.size;
    if b[0] >= 128 {
      HeadExact(b[1..], 1, b[0] - 128);
      ScaledOnce(ParseVarint(b[1..], |b| - 1).value.value);
    }
    var low := ParseVarint(b, |b|).value.value % TWO32;
    EarlyIsHarmless(b, 0, low);
    HarmlessCons(b, 0, n, low);
    NothingHarms(b[1..], 1, low);
  }

  /** Before the 38th byte no bit position wraps around, so an accepted varint is read right. */
  lemma ShortIsRight(b: Bytes)
    requires Dec32(b).Some? && Dec32(b).value.size <= 37
    ensures ParseVarint(b, |b|).Some?
    ensures Dec32(b).value == Parsed(ParseVarint(b, |b|).value.value % TWO32, ParseVarint(b, |b|).value.size)
  {
    hide Dec32, Or32, Power;
    Reads32Exactly(b);
  }

  /** A longer allowance changes nothing once the varint has ended. */
  lemma {:induction false} MoreAllowed(b: Bytes, n: nat, m: nat)
    requires n <= m && ParseVarint(b, n).Some?
    ensures ParseVarint(b, m) == ParseVarint(b, n)
    decreases n
  {
    if b[0] >= 128 {
      MoreAllowed(b[1..], n - 1, m - 1);
    }
  }

  lemma {:induction false} AllowedLength(b: Bytes, n: nat)
    requires |b| <= n
    ensures ParseVarint(b, n) == ParseVarint(b, |b|)
    decreases |b|
  {
    if b != [] {
      AllowedLength(b[1..], n - 1);
    }
  }

  /**
   Whenever both readers accept an input, they take the same bytes and the 32-bit reader gives
   the low 32 bits of the 64-bit one.
   */
  lemma ReadersAgree(b: Bytes)
    requires Dec32(b).Some? && Dec64(b).Some?
    ensures Dec32(b).value.size == Dec64(b).value.size
    ensures Dec32(b).value.value == Dec64(b).value.value % TWO32
  {
    hide Dec32, ParseVarint;
    if |b| <= 10 {
      AllowedLength(b, 10);
    } else {
      MoreAllowed(b, 10, |b|);
    }
    Reads32Exactly(b);
    ShortIsRight(b);
    LowOfLow(ParseVarint(b, |b|).value.value);
  }

  /** A varint that starts with `k` bytes without a bit. */
  function Padded(k: nat, x: byte): Bytes {
    seq(k, i => 128) + [x]
  }

  lemma {:induction false} PaddingSkipped(k: nat, x: byte, i: nat)
    requires 1 <= i && i + k <= 37
    ensures Dec32Rest(Padded(k, x), i, 0) == Onwards(Dec32Rest([x], i + k, 0), k)
    decreases k
  {
    hide Or32;
    var b := Padded(k, x);
    if k == 0 {
      assert b == [x];
    } else {
      assert b[0] == 128 && b[1..] == Padded(k - 1, x);
      NoBits(i);
      PaddingSkipped(k - 1, x, i + 1);
    }
  }

  lemma NoBits(i: nat)
    requires 1 <= i <= 36
    ensures Absorbed(128, i, 0) == Some(0)
  {
    hide Or32;
    assert i >= 5 ==> BitPos(i) >= 32;
  }

  /**
   The 64-bit reader refuses a varint of 38 bytes of which only the last has a bit; the 32-bit
   reader, whose bit position wraps around, takes it for 8.
   */
  lemma LongVarintWraps()
    ensures |Padded(37, 1)| == 38 && Dec64(Padded(37, 1)).None? && Dec32(Padded(37, 1)) == Some(Parsed(8, 38))
  {
    hide Dec32Rest, Dec64;
    var b := Padded(37, 1);
    assert b[0] == 128 && b[1..] == Padded(36, 1);
    PaddingSkipped(36, 1, 1);
    WrappedByte();
    TooLong(b, 10);
    assert Dec64(b).None? by {
      NoVarint64(b);
    }
  }

  lemma NoVarint64(b: Bytes)
    requires ParseVarint(b, 10).None?
    ensures Dec64(b).None?
  {
    hide ParseVarint;
  }

  lemma WrappedByte()
    ensures Dec32Rest([1], 37, 0) == Some(Parsed(8, 1))
  {
    PowerIs();
    OrZero(8, 32);
    assert BitPos(37) == 3;
    hide Or, Power;
  }

  lemma {:induction false} OrZero(a: nat, bits: nat)
    requires a < Power(bits)
    ensures Or(0, a, bits) == a
    decreases bits
  {
    if bits > 0 {
      OrZero(a / 2, bits - 1);
    }
  }

  lemma {:induction false} TooLong(b: Bytes, n: nat)
    requires |b| >= n && forall i :: 0 <= i < n ==> b[i] >= 128
    ensures ParseVarint(b, n).None?
    decreases n
  {
    if n > 0 {
      TooLong(b[1..], n - 1);
    }
  }

  lemma ScaledOnce(v: nat)
    ensures Scaled(v, 1) == 128 * v
  {
    assert Pow128(1) == 128;
  }

  lemma LowOfLow(x: nat)
    ensures x % TWO64 % TWO32 == x % TWO32
  {
    var q := x / TWO64;
    assert x == q * TWO64 + x % TWO64;
    assert x == (q * TWO32) * TWO32 + x % TWO64;
  }

  lemma {:induction false} Dec32RestBack(v: nat, i: nat, result: u32, tail: Bytes)
    requires 1 <= i <= 4 && result + Scaled(v, i) < TWO32
    ensures Dec32Rest(Varint(v) + tail, i, result) == Some(Parsed(result + Scaled(v, i), |Varint(v)|))
    decreases v
  {
    Small(v, i);
    VarintCons(v, tail);
    hide Scaled, Varint, Absorbed, BitPos;
    var b := Varint(v) + tail;
    EarlyByte(b[0], i, result);
    if v < 128 {
      assert Absorbed(b[0], i, result) == Some(result + Scaled(v, i));
    } else {
      NextSmall(v, i, result);
      assert Absorbed(b[0], i, result) == Some(result + Scaled(v % 128, i));
      Dec32RestBack(v / 128, i + 1, result + Scaled(v % 128, i), tail);
    }
  }

  lemma VarintCons(v: nat, tail: Bytes)
    ensures v < 128 ==> |Varint(v)| == 1 && (Varint(v) + tail)[0] == v
    ensures v >= 128 ==> |Varint(v)| == 1 + |Varint(v / 128)| && (Varint(v) + tail)[0] == v % 128 + 128
    ensures v >= 128 ==> (Varint(v) + tail)[1..] == Varint(v / 128) + tail
  {
  }

  lemma Small(v: nat, i: nat)
    requires 1 <= i <= 4 && Scaled(v, i) < TWO32
    ensures (i == 4 ==> v < 16) && (v >= 128 ==> i < 4)
  {
    assert Pow128(1) == 128 && Pow128(2) == 0x4000 && Pow128(3) == 0x20_0000 && Pow128(4) == 0x1000_0000;
  }

  lemma NextSmall(v: nat, i: nat, result: nat)
    requires result + Scaled(v, i) < TWO32
    ensures 0 <= Scaled(v % 128, i)
    ensures result + Scaled(v % 128, i) + Scaled(v / 128, i + 1) == result + Scaled(v, i)
    ensures result + Scaled(v % 128, i) < TWO32
  {
    assert Pow128(i + 1) == 128 * Pow128(i);
    hide Pow128;
    Shifts(v % 128, v / 128, Pow128(i));
    assert 0 <= v / 128 * (128 * Pow128(i));
  }

  /** Reading back an encoded 32-bit number. */
  lemma Dec32Back(v: u32, tail: Bytes)
    ensures Dec32(Varint(v) + tail) == Some(Parsed(v, |Varint(v)|))
  {
    var b := Varint(v) + tail;
    if v < 128 {
      assert b[0] == v;
    } else {
      assert b[0] == v % 128 + 128 && b[1..] == Varint(v / 128) + tail;
      ScaledOnce(v / 128);
      hide Scaled;
      Dec32RestBack(v / 128, 1, v % 128, tail);
    }
  }

  // Signed numbers

  type i64 = x: int | -0x8000_0000_0000_0000 <= x < 0x8000_0000_0000_0000

  /** Two's complement. */
  function Unsigned(v: i64): u64 {
    if v < 0 then v + TWO64 else v
  }

  function Signed(v: u64): i64 {
    if v >= 0x8000_0000_0000_0000 then v - TWO64 else v
  }

  function Signed32(v: u64): i64 {
    var low := v % TWO32;
    if low >= 0x8000_0000 then low - TWO32 else low
  }

  /** The complement of twice the number if it is negative, and twice the number otherwise, in 64 bits. */
  function ZigZag(v: i64): u64 {
    if v < 0 then TWO64 - 1 - 2 * Unsigned(v) % TWO64 else 2 * v
  }

  function UnZigZag(u: u64): i64 {
    if u % 2 == 1 then Signed(TWO64 - 1 - u / 2) else u / 2
  }

  /** ZigZag is undone, and small numbers of either sign become small. */
  lemma ZigZagBack(v: i64)
    ensures UnZigZag(ZigZag(v)) == v
    ensures ZigZag(v) == if v < 0 then -2 * v - 1 else 2 * v
  {
  }
}
