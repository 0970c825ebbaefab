/**
 Bloom filters, for any hash function.
 */
module Bloom {
  import opened Keys
  import opened Coding

  type Hash = Bytes -> u32

  // Bits of a byte

  function Pow2(w: nat): (p: nat)
    ensures p > 0
  {
    if w == 0 then 1 else 2 * Pow2(w - 1)
  }

  /** Bit `i` of `b` is set. */
  predicate HasBit(b: nat, i: nat) {
    if i == 0 then b % 2 == 1 else HasBit(b / 2, i - 1)
  }

  /** `b` with bit `i` set. */
  function SetBit(b: nat, i: nat): nat {
    if i == 0 then 2 * (b / 2) + 1 else 2 * SetBit(b / 2, i - 1) + b % 2
  }

  lemma {:induction false} SetBitIs(b: nat, i: nat, j: nat)
    ensures HasBit(SetBit(b, i), j) <==> HasBit(b, j) || i == j
    decreases i
  {
    if i > 0 && j > 0 {
      SetBitIs(b / 2, i - 1, j - 1);
      Halves(SetBit(b / 2, i - 1), b % 2);
    } else if i > 0 {
      Halves(SetBit(b / 2, i - 1), b % 2);
    } else if j > 0 {
      Halves(b / 2, 1);
    }
  }

  lemma Halves(h: nat, r: nat)
    requires r < 2
    ensures (2 * h + r) / 2 == h && (2 * h + r) % 2 == r
  {
  }

  lemma {:induction false} SetBitFits(b: nat, i: nat, w: nat)
    requires b < Pow2(w) && i < w
    ensures SetBit(b, i) < Pow2(w)
    decreases w
  {
    if i > 0 {
      SetBitFits(b / 2, i - 1, w - 1);
    }
  }

  function SetByteBit(b: byte, i: nat): byte
    requires i < 8
  {
    assert Pow2(8) == 256 by {
      assert Pow2(4) == 16;
    }
    SetBitFits(b, i, 8);
    SetBit(b, i)
  }

  // Bits of an array of bytes

  predicate BitAt(a: Bytes, bit: nat)
    requires bit < 8 * |a|
  {
    HasBit(a[bit / 8], bit % 8)
  }

  function WithBit(a: Bytes, bit: nat): (r: Bytes)
    requires bit < 8 * |a|
    ensures |r| == |a|
  {
    a[bit / 8 := SetByteBit(a[bit / 8], bit % 8)]
  }

  lemma WithBitIs(a: Bytes, bit: nat, other: nat)
    requires bit < 8 * |a| && other < 8 * |a|
    ensures BitAt(WithBit(a, bit), other) <==> BitAt(a, other) || bit == other
  {
    hide HasBit, SetBit;
    SetBitIs(a[bit / 8], bit % 8, other % 8);
    assert bit == 8 * (bit / 8) + bit % 8 && other == 8 * (other / 8) + other % 8;
  }

  // The probes of a key

  /** Rotates a 32-bit word right by 17 bits. */
  function Rotated(h: u32): u32 {
    h / 0x2_0000 + (h % 0x2_0000) * 0x8000
  }

  /** The hash after `j` additions of the rotated hash, in 32 bits. */
  function ProbeHash(h: u32, j: nat): u32 {
    if j == 0 then h else (ProbeHash(h, j - 1) + Rotated(h)) % TWO32
  }

  lemma NextProbe(h: u32, j: nat)
    ensures ProbeHash(h, j + 1) == (ProbeHash(h, j) + Rotated(h)) % TWO32
  {
  }

  function Position(h: u32, bits: nat): (bit: nat)
    requires bits > 0
    ensures bit < bits
  {
    h % bits
  }

  /** The bit that probe `j` of a key looks at. */
  function Probe(hash: Hash, key: Bytes, bits: nat, j: nat): (bit: nat)
    requires bits > 0
    ensures bit < bits
  {
    Position(ProbeHash(hash(key), j), bits)
  }

  /** All probes of the key hit set bits. */
  ghost predicate Matches(hash: Hash, key: Bytes, a: Bytes, k: nat) {
    forall j :: 0 <= j < k ==> |a| > 0 && BitAt(a, Probe(hash, key, 8 * |a|, j))
  }

  /** The answer for a whole filter: the bits, then a byte with the number of probes. */
  ghost predicate MayMatch(hash: Hash, key: Bytes, filter: Bytes) {
    var len := |filter|;
    len >= 2 && (filter[len - 1] > 30 || Matches(hash, key, filter[..len - 1], filter[len - 1]))
  }

  method KeyMayMatch(hash: Hash, key: Bytes, filter: Bytes) returns (r: bool)
    ensures r <==> MayMatch(hash, key, filter)
  {
    var len := |filter|;
    if len < 2 {
      return false;
    }
    var a := filter[..len - 1];
    var bits := 8 * (len - 1);
    var k := filter[len - 1];
    if k > 30 {
      return true;
    }
    var h := hash(key);
    var delta := Rotated(h);
    hide BitAt, Rotated, Position, ProbeHash;
    ProbeStart(h);
    for j := 0 to k
      invariant h == ProbeHash(hash(key), j)
      invariant forall i :: 0 <= i < j ==> BitAt(a, Probe(hash, key, bits, i))
    {
      if !BitAt(a, Position(h, bits)) {
        assert !BitAt(a, Probe(hash, key, bits, j));
        return false;
      }
      NextProbe(hash(key), j);
      h := (h + delta) % TWO32;
    }
    return true;
  }

  lemma ProbeStart(h: u32)
    ensures ProbeHash(h, 0) == h
  {
  }

  /** Some probe of a key before `i`, or one of the first `j` probes of key `i`, is at the bit. */
  ghost predicate Probed(hash: Hash, keys: seq<Bytes>, bits: nat, k: nat, i: nat, j: nat, bit: nat)
    requires bits > 0
  {
    || (exists a, b :: 0 <= a < i && a < |keys| && 0 <= b < k && Probe(hash, keys[a], bits, b) == bit)
    || (i < |keys| && exists b :: 0 <= b < j && Probe(hash, keys[i], bits, b) == bit)
  }

  /** The bits that are set are exactly those probed so far. */
  ghost predicate SetFor(hash: Hash, keys: seq<Bytes>, a: Bytes, k: nat, i: nat, j: nat) {
    |a| > 0 && forall bit: nat :: bit < 8 * |a| ==> (BitAt(a, bit) <==> Probed(hash, keys, 8 * |a|, k, i, j, bit))
  }

  function Bits(n: nat, bitsPerKey: nat): (bits: nat)
    ensures bits >= 64
  {
    if n * bitsPerKey < 64 then 64 else n * bitsPerKey
  }

  lemma {:induction false} ZeroByte(i: nat)
    ensures !HasBit(0, i)
  {
    if i > 0 {
      ZeroByte(i - 1);
    }
  }

  lemma SetForNone(hash: Hash, keys: seq<Bytes>, a: Bytes, k: nat)
    requires |a| > 0 && forall i :: 0 <= i < |a| ==> a[i] == 0
    ensures SetFor(hash, keys, a, k, 0, 0)
  {
    hide HasBit, Probe;
    forall bit: nat | bit < 8 * |a|
      ensures !BitAt(a, bit)
    {
      ZeroByte(bit % 8);
    }
  }

  lemma SetForProbe(hash: Hash, keys: seq<Bytes>, a: Bytes, k: nat, i: nat, j: nat)
    requires SetFor(hash, keys, a, k, i, j) && i < |keys|
    ensures SetFor(hash, keys, WithBit(a, Probe(hash, keys[i], 8 * |a|, j)), k, i, j + 1)
  {
    hide BitAt, Probe, WithBit;
    var bits, p := 8 * |a|, Probe(hash, keys[i], 8 * |a|, j);
    var a' := WithBit(a, p);
    forall bit: nat | bit < bits
      ensures BitAt(a', bit) <==> Probed(hash, keys, bits, k, i, j + 1, bit)
    {
      WithBitIs(a, p, bit);
      assert Probed(hash, keys, bits, k, i, j + 1, bit) <==> Probed(hash, keys, bits, k, i, j, bit) || bit == p by {
        MoreProbes(hash, keys, bits, k, i, j, bit);
      }
    }
  }

  lemma MoreProbes(hash: Hash, keys: seq<Bytes>, bits: nat, k: nat, i: nat, j: nat, bit: nat)
    requires bits > 0 && i < |keys|
    ensures Probed(hash, keys, bits, k, i, j + 1, bit)
       <==> Probed(hash, keys, bits, k, i, j, bit) || bit == Probe(hash, keys[i], bits, j)
  {
    hide Probe;
    if bit == Probe(hash, keys[i], bits, j) {
      assert 0 <= j < j + 1 && Probe(hash, keys[i], bits, j) == bit;
    }
  }

  lemma SetForKey(hash: Hash, keys: seq<Bytes>, a: Bytes, k: nat, i: nat)
    requires SetFor(hash, keys, a, k, i, k) && i < |keys|
    ensures SetFor(hash, keys, a, k, i + 1, 0)
  {
    hide BitAt, Probe;
    forall bit: nat | bit < 8 * |a|
      ensures Probed(hash, keys, 8 * |a|, k, i, k, bit) <==> Probed(hash, keys, 8 * |a|, k, i + 1, 0, bit)
    {
      NextKey(hash, keys, 8 * |a|, k, i, bit);
    }
  }

  lemma NextKey(hash: Hash, keys: seq<Bytes>, bits: nat, k: nat, i: nat, bit: nat)
    requires bits > 0 && i < |keys|
    ensures Probed(hash, keys, bits, k, i, k, bit) <==> Probed(hash, keys, bits, k, i + 1, 0, bit)
  {
    hide Probe;
    if b :| 0 <= b < k && Probe(hash, keys[i], bits, b) == bit {
      assert 0 <= i < i + 1 && Probe(hash, keys[i], bits, b) == bit;
    }
  }

  /** Appends a filter for the keys: the bits that they probe and no others, then the number of probes. */
  method CreateFilter(hash: Hash, bitsPerKey: nat, k: byte, keys: seq<Bytes>, dst: Bytes)
    returns (out: Bytes, ghost a: Bytes)
    requires 1 <= k <= 30
    ensures out == dst + (a + [k]) && SetFor(hash, keys, a, k, |keys|, 0)
    ensures |a| == (Bits(|keys|, bitsPerKey) + 7) / 8
  {
    var bytes := (Bits(|keys|, bitsPerKey) + 7) / 8;
    var bits := 8 * bytes;
    var bitmap: Bytes := seq(bytes, _ => 0);
    hide WithBit, SetFor, Rotated, Position, ProbeHash, Bits;
    SetForNone(hash, keys, bitmap, k);
    for i := 0 to |keys|
      invariant |bitmap| == bytes && SetFor(hash, keys, bitmap, k, i, 0)
    {
      var h := hash(keys[i]);
      var delta := Rotated(h);
      ProbeStart(h);
      for j := 0 to k
        invariant |bitmap| == bytes && SetFor(hash, keys, bitmap, k, i, j) && h == ProbeHash(hash(keys[i]), j)
      {
        SetForProbe(hash, keys, bitmap, k, i, j);
        NextProbe(hash(keys[i]), j);
        bitmap := WithBit(bitmap, Position(h, bits));
        h := (h + delta) % TWO32;
      }
      SetForKey(hash, keys, bitmap, k, i);
    }
    a := bitmap;
    out := dst + (bitmap + [k]);
  }

  /** A filter never hides a key it was made from. */
  lemma NoFalseNegatives(hash: Hash, keys: seq<Bytes>, a: Bytes, k: byte, i: nat)
    requires 1 <= k <= 30 && SetFor(hash, keys, a, k, |keys|, 0) && i < |keys|
    ensures MayMatch(hash, keys[i], a + [k])
  {
    hide BitAt, Probe;
    assert (a + [k])[..|a|] == a;
    forall j | 0 <= j < k
      ensures BitAt(a, Probe(hash, keys[i], 8 * |a|, j))
    {
      var bit := Probe(hash, keys[i], 8 * |a|, j);
      assert Probed(hash, keys, 8 * |a|, k, |keys|, 0, bit);
    }
  }
}
