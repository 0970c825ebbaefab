/**
 Blocks: prefix-compressed entries with restart points, as bytes, and the iterator that walks
 and searches them.
 */
module Block {
  import opened Keys
  import opened Coding

  datatype KV = KV(key: Bytes, value: Bytes)

  /** Length of the common prefix. */
  function Shared(a: Bytes, b: Bytes): (n: nat)
    ensures n <= |a| && n <= |b| && a[..n] == b[..n]
    ensures n < |a| && n < |b| ==> a[n] != b[n]
  {
    if a == [] || b == [] || a[0] != b[0] then 0
    else
      var n := Shared(a[1..], b[1..]);
      assert a[..n + 1] == [a[0]] + a[1..][..n] && b[..n + 1] == [b[0]] + b[1..][..n];
      n + 1
  }

  /** The scan that computes it. */
  method CommonPrefix(a: Bytes, b: Bytes) returns (n: nat)
    ensures n == Shared(a, b)
  {
    var minLength := if |a| < |b| then |a| else |b|;
    n := 0;
    while n < minLength && a[n] == b[n]
      invariant 0 <= n <= minLength && Shared(a, b) == n + Shared(a[n..], b[n..])
    {
      assert a[n..][1..] == a[n + 1..] && b[n..][1..] == b[n + 1..];
      n := n + 1;
    }
  }

  /** Entries since the last restart point, before entry `n` is added. */
  function Counter(interval: nat, n: nat): (c: nat)
    requires interval > 0
    ensures c <= interval && (n > 0 ==> c > 0)
  {
    if n == 0 then 0
    else if Counter(interval, n - 1) == interval then 1
    else Counter(interval, n - 1) + 1
  }

  /** Entry `i` stores its whole key. */
  predicate IsRestart(interval: nat, i: nat)
    requires interval > 0
  {
    i == 0 || Counter(interval, i) == interval
  }

  /** The entries at which the restart points of a block of `n` entries stand. */
  function Restarts(interval: nat, n: nat): (rs: seq<nat>)
    requires interval > 0
    ensures |rs| > 0 && rs[0] == 0
    ensures forall j :: 0 <= j < |rs| ==> IsRestart(interval, rs[j]) && (rs[j] < n || rs[j] == 0)
    ensures forall j, k :: 0 <= j < k < |rs| ==> rs[j] < rs[k]
  {
    if n == 0 then [0]
    else if Counter(interval, n - 1) == interval then Restarts(interval, n - 1) + [n - 1]
    else Restarts(interval, n - 1)
  }

  function SharedAt(es: seq<KV>, interval: nat, i: nat): (n: nat)
    requires interval > 0 && i < |es|
    ensures n <= |es[i].key|
    ensures (!IsRestart(interval, i) ==> n <= |es[i - 1].key| && es[i - 1].key[..n] == es[i].key[..n])
  {
    if IsRestart(interval, i) then 0 else Shared(es[i - 1].key, es[i].key)
  }

  function EntryBytes(shared: nat, key: Bytes, value: Bytes): (b: Bytes)
    requires shared <= |key|
    ensures |b| >= 3
  {
    Varint(shared) + Varint(|key| - shared) + Varint(|value|) + (key[shared..] + value)
  }

  /** The bytes of the first `n` entries. */
  function Enc(es: seq<KV>, interval: nat, n: nat): Bytes
    requires interval > 0 && n <= |es|
  {
    if n == 0 then []
    else Enc(es, interval, n - 1) + EntryBytes(SharedAt(es, interval, n - 1), es[n - 1].key, es[n - 1].value)
  }

  /** The offset of entry `n`. */
  function Offset(es: seq<KV>, interval: nat, n: nat): nat
    requires interval > 0 && n <= |es|
  {
    |Enc(es, interval, n)|
  }

  function Offsets(es: seq<KV>, interval: nat, rs: seq<nat>): (o: seq<nat>)
    requires interval > 0 && forall j :: 0 <= j < |rs| ==> rs[j] <= |es|
    ensures |o| == |rs| && forall j :: 0 <= j < |rs| ==> o[j] == Offset(es, interval, rs[j])
  {
    seq(|rs|, j requires 0 <= j < |rs| => Offset(es, interval, rs[j]))
  }

  function FixedAll(o: seq<nat>): (b: Bytes)
    requires forall j :: 0 <= j < |o| ==> o[j] < TWO32
    ensures |b| == 4 * |o|
  {
    if o == [] then [] else FixedAll(o[..|o| - 1]) + Fixed32(o[|o| - 1])
  }

  /** Sizes and offsets fit in 32 bits. */
  ghost predicate Fits(es: seq<KV>, interval: nat)
    requires interval > 0
  {
    Offset(es, interval, |es|) < TWO32 && |Restarts(interval, |es|)| < TWO32 &&
    forall i :: 0 <= i < |es| ==> |es[i].key| < TWO32 && |es[i].value| < TWO32
  }

  lemma {:induction false} EncMono(es: seq<KV>, interval: nat, a: nat, b: nat)
    requires interval > 0 && a <= b <= |es|
    ensures Offset(es, interval, a) + 3 * (b - a) <= Offset(es, interval, b)
    ensures Enc(es, interval, a) <= Enc(es, interval, b)
    decreases b - a
  {
    hide SharedAt, EntryBytes, IsRestart;
    if a < b {
      EncMono(es, interval, a, b - 1);
    }
  }

  lemma OffsetsFit(es: seq<KV>, interval: nat)
    requires interval > 0 && Fits(es, interval)
    ensures forall j :: 0 <= j < |Restarts(interval, |es|)| ==> Restarts(interval, |es|)[j] <= |es|
    ensures forall j :: 0 <= j < |Restarts(interval, |es|)| ==>
                          Offsets(es, interval, Restarts(interval, |es|))[j] < TWO32
  {
    hide Offset, Enc;
    var rs := Restarts(interval, |es|);
    forall j | 0 <= j < |rs|
      ensures rs[j] <= |es| && Offset(es, interval, rs[j]) < TWO32
    {
      EncMono(es, interval, rs[j], |es|);
    }
  }

  /** The finished block: entries, restart offsets, number of restarts. */
  ghost function BlockOf(es: seq<KV>, interval: nat): Bytes
    requires interval > 0 && Fits(es, interval)
  {
    var rs := Restarts(interval, |es|);
    OffsetsFit(es, interval);
    Enc(es, interval, |es|) + (FixedAll(Offsets(es, interval, rs)) + Fixed32(|rs|))
  }

  lemma {:induction false} EncStable(es: seq<KV>, e: KV, interval: nat, n: nat)
    requires interval > 0 && n <= |es|
    ensures Enc(es + [e], interval, n) == Enc(es, interval, n)
  {
    if n > 0 {
      EncStable(es, e, interval, n - 1);
      EncStep(es, interval, n);
      EncStep(es + [e], interval, n);
      hide *;
      SharedAtStable(es, e, interval, n - 1);
    }
  }

  lemma EncStep(es: seq<KV>, interval: nat, n: nat)
    requires interval > 0 && 0 < n <= |es|
    ensures Enc(es, interval, n) == Enc(es, interval, n - 1) +
                                    EntryBytes(SharedAt(es, interval, n - 1), es[n - 1].key, es[n - 1].value)
  {
    hide SharedAt, EntryBytes, Counter, IsRestart;
  }

  lemma SharedAtStable(es: seq<KV>, e: KV, interval: nat, i: nat)
    requires interval > 0 && i < |es|
    ensures SharedAt(es + [e], interval, i) == SharedAt(es, interval, i)
  {
    hide Shared, Counter;
    assert i > 0 ==> (es + [e])[i - 1] == es[i - 1];
  }

  lemma OffsetsStable(es: seq<KV>, e: KV, interval: nat, rs: seq<nat>)
    requires interval > 0 && forall j :: 0 <= j < |rs| ==> rs[j] <= |es|
    ensures Offsets(es + [e], interval, rs) == Offsets(es, interval, rs)
  {
    hide Enc;
    forall j | 0 <= j < |rs|
      ensures Offset(es + [e], interval, rs[j]) == Offset(es, interval, rs[j])
    {
      EncStable(es, e, interval, rs[j]);
    }
  }

  /** The builder's fields after adding `es`. */
  ghost predicate Built(es: seq<KV>, interval: nat, buffer: Bytes, restarts: seq<nat>, counter: nat, lastKey: Bytes)
    requires interval > 0
  {
    && buffer == Enc(es, interval, |es|) && counter == Counter(interval, |es|)
    && restarts == Offsets(es, interval, Restarts(interval, |es|))
    && lastKey == if es == [] then [] else es[|es| - 1].key
  }

  /** The buffer with one more entry. */
  function Extended(buffer: Bytes, shared: nat, key: Bytes, value: Bytes): Bytes
    requires shared <= |key|
  {
    buffer + EntryBytes(shared, key, value)
  }

  /** The last key cut to what it shares with the next, and then the rest of that. */
  function Resized(last: Bytes, shared: nat, key: Bytes): Bytes
    requires shared <= |last| && shared <= |key|
  {
    last[..shared] + key[shared..]
  }

  lemma AddStep(es: seq<KV>, e: KV, interval: nat, buffer: Bytes, restarts: seq<nat>, counter: nat, lastKey: Bytes)
    requires interval > 0 && Built(es, interval, buffer, restarts, counter, lastKey)
    ensures counter < interval ==>
              var shared := Shared(lastKey, e.key);
              Built(es + [e], interval, Extended(buffer, shared, e.key, e.value), restarts, counter + 1,
                    Resized(lastKey, shared, e.key))
    ensures counter >= interval ==>
              Built(es + [e], interval, Extended(buffer, 0, e.key, e.value), restarts + [|buffer|], 1,
                    Resized(lastKey, 0, e.key))
  {
    hide Enc, EntryBytes, SharedAt, Shared, Offsets, Restarts, IsRestart, Counter;
    CounterStep(interval, |es|);
    NextShared(es, e, interval);
    NextRestarts(es, e, interval);
    EncSnoc(es, e, interval);
    JoinShared(lastKey, e.key);
  }

  lemma CounterStep(interval: nat, n: nat)
    requires interval > 0
    ensures Counter(interval, n + 1) == if Counter(interval, n) < interval then Counter(interval, n) + 1 else 1
  {
  }

  lemma JoinShared(last: Bytes, key: Bytes)
    ensures last[..Shared(last, key)] + key[Shared(last, key)..] == key && last[..0] + key[0..] == key
  {
    hide Shared;
    var n := Shared(last, key);
    assert key[..n] + key[n..] == key;
  }

  class BlockBuilder {
    const interval: nat
    ghost var added: seq<KV>
    var buffer: Bytes
    var restarts: seq<nat>
    var counter: nat
    var lastKey: Bytes
    var finished: bool

    constructor (interval: nat)
      requires interval >= 1
      ensures this.interval == interval && Valid() && added == [] && !finished
    {
      this.interval := interval;
      added, buffer, restarts, counter, lastKey, finished := [], [], [0], 0, [], false;
    }

    ghost predicate Valid()
      reads this
    {
      interval >= 1 && (finished || Built(added, interval, buffer, restarts, counter, lastKey))
    }

    method Add(key: Bytes, value: Bytes)
      requires Valid() && !finished
      modifies this
      ensures Valid() && !finished && added == old(added) + [KV(key, value)]
    {
      hide Enc, Shared, Built, Extended, Resized;
      AddStep(added, KV(key, value), interval, buffer, restarts, counter, lastKey);
      var shared := 0;
      if counter < interval {
        shared := CommonPrefix(lastKey, key);
      } else {
        restarts := restarts + [|buffer|];
        counter := 0;
      }
      buffer := Extended(buffer, shared, key, value);
      lastKey := Resized(lastKey, shared, key);
      counter := counter + 1;
      added := added + [KV(key, value)];
    }

    function Empty(): (e: bool)
      requires Valid() && !finished
      reads this
      ensures e <==> added == []
    {
      EncMono(added, interval, 0, |added|);
      buffer == []
    }

    /** The size of the block if it were finished now. */
    function CurrentSizeEstimate(): nat
      reads this
    {
      |buffer| + 4 * |restarts| + 4
    }

    /** Finishes the block. Restart offsets are stored in 32 bits; when sizes fit, the block is that of its entries. */
    method Finish() returns (block: Bytes)
      requires Valid() && !finished
      modifies this
      ensures Valid() && finished && added == old(added) && |block| == old(CurrentSizeEstimate())
      ensures Fits(added, interval) ==> block == BlockOf(added, interval)
    {
      hide Enc, Restarts, Counter, FixedAll, Fixed32, Fits;
      if Fits(added, interval) {
        OffsetsFit(added, interval);
        LowFits(restarts);
        RestartsFit(added, interval);
      }
      var trailer := FixedRestarts(Low(restarts));
      buffer := buffer + (trailer + Fixed32(|restarts| % TWO32));
      finished := true;
      block := buffer;
    }

    method Reset()
      requires interval >= 1
      modifies this
      ensures Valid() && added == [] && !finished
    {
      added, buffer, restarts, counter, lastKey, finished := [], [], [0], 0, [], false;
    }
  }

  /** The numbers as 32 bits hold them. */
  function Low(o: seq<nat>): (r: seq<nat>)
    ensures |r| == |o| && forall i :: 0 <= i < |o| ==> r[i] < TWO32 && (o[i] < TWO32 ==> r[i] == o[i])
  {
    seq(|o|, i requires 0 <= i < |o| => o[i] % TWO32)
  }

  lemma LowFits(o: seq<nat>)
    ensures (forall i :: 0 <= i < |o| ==> o[i] < TWO32) ==> Low(o) == o
  {
  }

  lemma RestartsFit(es: seq<KV>, interval: nat)
    requires interval > 0 && Fits(es, interval)
    ensures |Restarts(interval, |es|)| < TWO32
  {
  }

  lemma NextShared(es: seq<KV>, e: KV, interval: nat)
    requires interval > 0
    ensures var n := |es|;
            var last := if n == 0 then [] else es[n - 1].key;
            SharedAt(es + [e], interval, n) == if Counter(interval, n) < interval then Shared(last, e.key) else 0
  {
    hide Counter;
  }

  lemma NextRestarts(es: seq<KV>, e: KV, interval: nat)
    requires interval > 0
    ensures var n := |es|;
            var o := Offsets(es, interval, Restarts(interval, n));
            Offsets(es + [e], interval, Restarts(interval, n + 1))
            == if Counter(interval, n) < interval then o else o + [Offset(es, interval, n)]
  {
    var n := |es|;
    OffsetsStable(es, e, interval, Restarts(interval, n));
    AddOffset(es, e, interval, Restarts(interval, n), n);
    RestartsStep(interval, n);
    hide Restarts, Offsets, Offset, Counter;
  }

  lemma RestartsStep(interval: nat, n: nat)
    requires interval > 0
    ensures Restarts(interval, n + 1)
         == if Counter(interval, n) < interval then Restarts(interval, n) else Restarts(interval, n) + [n]
  {
    hide Counter;
  }

  method FixedRestarts(o: seq<nat>) returns (trailer: Bytes)
    requires forall j :: 0 <= j < |o| ==> o[j] < TWO32
    ensures trailer == FixedAll(o)
  {
    trailer := [];
    for i := 0 to |o|
      invariant trailer == FixedAll(o[..i])
    {
      hide Fixed32;
      assert o[..i + 1][..i] == o[..i];
      trailer := trailer + Fixed32(o[i]);
    }
    assert o[..|o|] == o;
  }

  lemma AddOffset(es: seq<KV>, e: KV, interval: nat, rs: seq<nat>, n: nat)
    requires interval > 0 && n == |es| && forall j :: 0 <= j < |rs| ==> rs[j] <= |es|
    ensures Offsets(es + [e], interval, rs + [n]) == Offsets(es, interval, rs) + [Offset(es, interval, n)]
  {
    hide Enc;
    OffsetsStable(es, e, interval, rs);
    EncStable(es, e, interval, n);
    var a, b := Offsets(es + [e], interval, rs + [n]), Offsets(es, interval, rs) + [Offset(es, interval, n)];
    forall j | 0 <= j < |a|
      ensures a[j] == b[j]
    {
      if j < |rs| {
        assert Offsets(es + [e], interval, rs)[j] == Offset(es + [e], interval, rs[j]);
      }
    }
  }

  lemma EncSnoc(es: seq<KV>, e: KV, interval: nat)
    requires interval > 0
    ensures Enc(es + [e], interval, |es| + 1)
         == Enc(es, interval, |es|) + EntryBytes(SharedAt(es + [e], interval, |es|), e.key, e.value)
  {
    EncStable(es, e, interval, |es|);
  }

  datatype Header = Header(shared: nat, nonShared: nat, valueLength: nat, size: nat)

  /** Three varints in a row. */
  function ThreeVarints(b: Bytes): (r: Option<Header>)
    ensures r.Some? ==> 3 <= r.value.size <= |b|
  {
    var s := ReadVarint32(b);
    if s.None? then None else
    var n := ReadVarint32(b[s.value.size..]);
    if n.None? then None else
    var v := ReadVarint32(b[s.value.size..][n.value.size..]);
    if v.None? then None
    else Some(Header(s.value.value, n.value.value, v.value.value, s.value.size + n.value.size + v.value.size))
  }

  /** The three lengths at the head of an entry; one byte each on the fast path. */
  function DecodeLengths(b: Bytes): (r: Option<Header>)
    requires |b| >= 3
    ensures r.Some? ==> 3 <= r.value.size <= |b|
  {
    if b[0] < 128 && b[1] < 128 && b[2] < 128 then Some(Header(b[0], b[1], b[2], 3)) else ThreeVarints(b)
  }

  /** The fast path changes nothing, whatever the bytes. */
  lemma FastPathAgrees(b: Bytes)
    requires |b| >= 3
    ensures DecodeLengths(b) == ThreeVarints(b)
  {
    if b[0] < 128 && b[1] < 128 && b[2] < 128 {
      assert ReadVarint32(b) == Some(Parsed(b[0], 1));
      assert ReadVarint32(b[1..]) == Some(Parsed(b[1], 1));
      assert b[1..][1..] == b[2..];
      assert ReadVarint32(b[2..]) == Some(Parsed(b[2], 1));
    }
  }

  /** Decodes the head of the entry that `b` begins with, and checks that the entry fits. */
  function DecodeEntry(b: Bytes): (r: Option<Header>)
    ensures r.Some? ==> 3 <= r.value.size && r.value.size + r.value.nonShared + r.value.valueLength <= |b|
  {
    if |b| < 3 then None
    else
      var h := DecodeLengths(b);
      if h.None? || |b| - h.value.size < h.value.nonShared + h.value.valueLength then None else h
  }

  lemma LengthsRoundTrip(a: u32, b: u32, c: u32, tail: Bytes)
    ensures var enc := Varint(a) + Varint(b) + Varint(c) + tail;
            |enc| >= 3 && DecodeLengths(enc) == Some(Header(a, b, c, |Varint(a)| + |Varint(b)| + |Varint(c)|))
  {
    hide Varint, ReadVarint32, DecodeLengths, ThreeVarints;
    var va, vb, vc := Varint(a), Varint(b), Varint(c);
    var t1 := vc + tail;
    var t0 := vb + t1;
    ThreeParts(va, vb, vc, tail);
    ReadVarint32RoundTrip(a, t0);
    ReadVarint32RoundTrip(b, t1);
    ReadVarint32RoundTrip(c, tail);
    ThreeReads(va + t0, t0, t1, Parsed(a, |va|), Parsed(b, |vb|), Parsed(c, |vc|));
    FastPathAgrees(va + vb + vc + tail);
  }

  lemma ThreeReads(enc: Bytes, t0: Bytes, t1: Bytes, a: Parsed, b: Parsed, c: Parsed)
    requires ReadVarint32(enc) == Some(a) && ReadVarint32(t0) == Some(b) && ReadVarint32(t1) == Some(c)
    requires enc[a.size..] == t0 && t0[b.size..] == t1
    ensures ThreeVarints(enc) == Some(Header(a.value, b.value, c.value, a.size + b.size + c.size))
  {
    hide ReadVarint32;
  }

  lemma ThreeParts(a: Bytes, b: Bytes, c: Bytes, tail: Bytes)
    ensures a + b + c + tail == a + (b + (c + tail))
    ensures (a + (b + (c + tail)))[|a|..] == b + (c + tail) && (b + (c + tail))[|b|..] == c + tail
  {
  }

  /** The head of a stored entry decodes to its lengths. */
  lemma EntryRoundTrip(shared: nat, key: Bytes, value: Bytes, tail: Bytes)
    requires shared <= |key| < TWO32 && |value| < TWO32
    ensures var size := |Varint(shared)| + |Varint(|key| - shared)| + |Varint(|value|)|;
            && DecodeEntry(EntryBytes(shared, key, value) + tail) == Some(Header(shared, |key| - shared, |value|, size))
            && |EntryBytes(shared, key, value)| == size + |key| - shared + |value|
            && EntryBytes(shared, key, value)[size..] == key[shared..] + value
  {
    hide Varint, DecodeLengths, EntryBytes;
    EntrySplit(shared, key, value, tail);
    LengthsRoundTrip(shared, |key| - shared, |value|, key[shared..] + value + tail);
  }

  lemma EntrySplit(shared: nat, key: Bytes, value: Bytes, tail: Bytes)
    requires shared <= |key|
    ensures var head, rest := Varint(shared) + Varint(|key| - shared) + Varint(|value|), key[shared..] + value;
            && EntryBytes(shared, key, value) + tail == head + (rest + tail)
            && EntryBytes(shared, key, value)[|head|..] == rest && |EntryBytes(shared, key, value)| == |head| + |rest|
  {
    hide Varint;
    Reassociate(Varint(shared) + Varint(|key| - shared) + Varint(|value|), key[shared..] + value, tail);
  }

  lemma Reassociate(head: Bytes, rest: Bytes, tail: Bytes)
    ensures head + rest + tail == head + (rest + tail) && (head + rest)[|head|..] == rest
  {
  }

  /** Where the restart array of a block begins and how many restart points it has. */
  function ParseTrailer(data: Bytes): (r: Option<(nat, nat)>)
    ensures r.Some? ==> |data| == r.value.0 + 4 * r.value.1 + 4
  {
    if |data| < 4 then None
    else
      var num := DecodeFixed32(data[|data| - 4..]);
      if num > (|data| - 4) / 4 then None else Some((|data| - 4 * (1 + num), num))
  }

  lemma TrailerRoundTrip(es: seq<KV>, interval: nat)
    requires interval > 0 && Fits(es, interval)
    ensures ParseTrailer(BlockOf(es, interval)) == Some((Offset(es, interval, |es|), |Restarts(interval, |es|)|))
  {
    var data := BlockOf(es, interval);
    var rs := Restarts(interval, |es|);
    OffsetsFit(es, interval);
    var offs := FixedAll(Offsets(es, interval, rs));
    hide Enc, Restarts, FixedAll;
    assert data[|data| - 4..] == Fixed32(|rs|);
    assert Fixed32(|rs|) + [] == Fixed32(|rs|);
    Fixed32RoundTrip(|rs|, []);
  }

  ghost predicate HoldsFixed32(data: Bytes, at: nat, v: nat) {
    at + 4 <= |data| && DecodeFixed32(data[at..at + 4]) == v
  }

  /** The bytes `piece` stand at `at`. */
  ghost predicate HasAt(data: Bytes, at: nat, piece: Bytes) {
    at + |piece| <= |data| && data[at..at + |piece|] == piece
  }

  lemma HasIn(a: Bytes, b: Bytes, c: Bytes, at: nat, piece: Bytes)
    requires HasAt(b, at, piece)
    ensures HasAt(a + (b + c), |a| + at, piece)
  {
  }

  lemma HasBefore(a: Bytes, b: Bytes, at: nat, piece: Bytes)
    requires HasAt(a, at, piece)
    ensures HasAt(a + b, at, piece)
  {
  }

  lemma HasAfter(a: Bytes, b: Bytes)
    ensures HasAt(a + b, |a|, b)
  {
  }

  lemma {:induction false} FixedAllAt(o: seq<nat>, j: nat)
    requires (forall j :: 0 <= j < |o| ==> o[j] < TWO32) && j < |o|
    ensures HasAt(FixedAll(o), 4 * j, Fixed32(o[j]))
  {
    hide Fixed32, HasAt;
    var n := |o| - 1;
    if j < n {
      FixedAllAt(o[..n], j);
      HasBefore(FixedAll(o[..n]), Fixed32(o[n]), 4 * j, Fixed32(o[j]));
    } else {
      HasAfter(FixedAll(o[..n]), Fixed32(o[n]));
    }
  }

  /** The restart array holds the offsets of the restart entries. */
  lemma RestartRoundTrip(es: seq<KV>, interval: nat, j: nat)
    requires interval > 0 && Fits(es, interval) && j < |Restarts(interval, |es|)|
    ensures Restarts(interval, |es|)[j] <= |es|
    ensures HoldsFixed32(BlockOf(es, interval), Offset(es, interval, |es|) + 4 * j,
                         Offset(es, interval, Restarts(interval, |es|)[j]))
  {
    OffsetsFit(es, interval);
    hide Enc, Restarts, FixedAll, Fixed32, BlockOf, Fits, HoldsFixed32, IsRestart;
    TrailerInBlock(es, interval, Offsets(es, interval, Restarts(interval, |es|)), j);
  }

  lemma TrailerInBlock(es: seq<KV>, interval: nat, o: seq<nat>, j: nat)
    requires interval > 0 && Fits(es, interval)
    requires (forall j :: 0 <= j < |Restarts(interval, |es|)| ==> Restarts(interval, |es|)[j] <= |es|)
    requires o == Offsets(es, interval, Restarts(interval, |es|))
    requires (forall j :: 0 <= j < |o| ==> o[j] < TWO32) && j < |o|
    ensures HoldsFixed32(BlockOf(es, interval), Offset(es, interval, |es|) + 4 * j, o[j])
  {
    assert |Restarts(interval, |es|)| < TWO32;
    hide Enc, Restarts, FixedAll, Fixed32, BlockOf, Fits, HoldsFixed32, Offsets;
    BlockParts(es, interval, o);
    TrailerSlice(Enc(es, interval, |es|), o, Fixed32(|Restarts(interval, |es|)|), j);
  }

  lemma BlockParts(es: seq<KV>, interval: nat, o: seq<nat>)
    requires interval > 0 && Fits(es, interval)
    requires (forall j :: 0 <= j < |Restarts(interval, |es|)| ==> Restarts(interval, |es|)[j] <= |es|)
    requires o == Offsets(es, interval, Restarts(interval, |es|))
    requires forall j :: 0 <= j < |o| ==> o[j] < TWO32
    ensures BlockOf(es, interval) == Enc(es, interval, |es|) + (FixedAll(o) + Fixed32(|Restarts(interval, |es|)|))
  {
    hide Enc, Restarts, FixedAll, Fixed32;
  }

  lemma TrailerSlice(enc: Bytes, o: seq<nat>, tail: Bytes, j: nat)
    requires (forall j :: 0 <= j < |o| ==> o[j] < TWO32) && j < |o|
    ensures HoldsFixed32(enc + (FixedAll(o) + tail), |enc| + 4 * j, o[j])
  {
    hide FixedAll, Fixed32, HasAt, HoldsFixed32;
    FixedAllAt(o, j);
    HasIn(enc, FixedAll(o), tail, 4 * j, Fixed32(o[j]));
    HasDecodes(enc + (FixedAll(o) + tail), |enc| + 4 * j, o[j]);
  }

  lemma HasDecodes(data: Bytes, at: nat, v: u32)
    requires HasAt(data, at, Fixed32(v))
    ensures HoldsFixed32(data, at, v)
  {
    hide DecodeFixed32, Fixed32;
    Fixed32Alone(v);
  }

  lemma Fixed32Alone(v: u32)
    ensures DecodeFixed32(Fixed32(v)) == v
  {
    assert Fixed32(v) + [] == Fixed32(v);
    Fixed32RoundTrip(v, []);
  }

  /** The bytes `e` stand at `at`, before `end`. */
  ghost predicate LiesAt(data: Bytes, at: nat, end: nat, e: Bytes) {
    at + |e| <= end <= |data| && data[at..end] == e + data[at + |e|..end]
  }

  /** `key` is the first `n` bytes of `last` and then its own. */
  ghost predicate Joins(last: Bytes, n: nat, key: Bytes) {
    n <= |last| && n <= |key| && last[..n] + key[n..] == key
  }

  /** Entry `i` lies in the block at its offset. */
  lemma EntryAt(es: seq<KV>, interval: nat, i: nat)
    requires interval > 0 && Fits(es, interval) && i < |es|
    ensures var at, end := Offset(es, interval, i), Offset(es, interval, |es|);
            var e := EntryBytes(SharedAt(es, interval, i), es[i].key, es[i].value);
            at + |e| == Offset(es, interval, i + 1) && LiesAt(BlockOf(es, interval), at, end, e)
  {
    EncMono(es, interval, i + 1, |es|);
    var e := EntryBytes(SharedAt(es, interval, i), es[i].key, es[i].value);
    OffsetsFit(es, interval);
    var before, all := Enc(es, interval, i), Enc(es, interval, |es|);
    assert Enc(es, interval, i + 1) == before + e;
    hide Enc, Restarts, SharedAt, EntryBytes, FixedAll;
    var trailer := BlockOf(es, interval)[|all|..];
    Piece(before, e, all, trailer);
    assert BlockOf(es, interval) == all + trailer;
  }

  lemma Piece(before: Bytes, e: Bytes, all: Bytes, trailer: Bytes)
    requires before + e <= all
    ensures var data, at, end := all + trailer, |before|, |all|;
            LiesAt(data, at, end, e)
  {
    var data, at, end := all + trailer, |before|, |all|;
    assert data[..end] == all;
    assert data[at..at + |e|] == (before + e)[at..] == e;
  }

  /** Offsets order entries. */
  lemma OffsetOrder(es: seq<KV>, interval: nat, a: nat, b: nat)
    requires interval > 0 && a <= |es| && b <= |es|
    ensures Offset(es, interval, a) < Offset(es, interval, b) <==> a < b
  {
    hide Offset;
    if a < b {
      EncMono(es, interval, a, b);
    } else {
      EncMono(es, interval, b, a);
    }
  }

  lemma SliceParts(data: Bytes, at: nat, end: nat, e: Bytes, size: nat, k: Bytes, value: Bytes)
    requires LiesAt(data, at, end, e)
    requires size + |k| + |value| == |e| && e[size..] == k + value
    ensures data[at + size..at + size + |k|] == k && data[at + size + |k|..at + |e|] == value
  {
    assert e == data[at..end][..|e|] == data[at..at + |e|];
    var m := at + size;
    assert data[m..at + |e|] == e[size..];
    assert data[m..m + |k|] == (k + value)[..|k|];
    assert data[m + |k|..at + |e|] == (k + value)[|k|..];
  }

  lemma EntryFits(es: seq<KV>, interval: nat, i: nat)
    requires interval > 0 && Fits(es, interval) && i < |es|
    ensures |es[i].key| < TWO32 && |es[i].value| < TWO32
  {
  }

  /** The bytes from `at` decode to an entry that ends at `next` and, after the key `last`, is `kv`. */
  ghost predicate Decodes(data: Bytes, at: nat, end: nat, next: nat, last: Bytes, kv: KV)
    requires at <= end <= |data|
  {
    var h := DecodeEntry(data[at..end]);
    && h.Some? && h.value.shared <= |last|
    && next == at + h.value.size + h.value.nonShared + h.value.valueLength
    && last[..h.value.shared] + data[at + h.value.size..at + h.value.size + h.value.nonShared] == kv.key
    && data[at + h.value.size + h.value.nonShared..next] == kv.value
  }

  /** The entry decoded at an offset of a good block, applied to the key it builds on, is entry `i`. */
  lemma DecodeAt(es: seq<KV>, interval: nat, i: nat, data: Bytes, key: Bytes)
    requires interval > 0 && Fits(es, interval) && i < |es| && data == BlockOf(es, interval)
    requires !IsRestart(interval, i) ==> key == es[i - 1].key
    ensures var at, next, end := Offset(es, interval, i), Offset(es, interval, i + 1), Offset(es, interval, |es|);
            at + 3 <= next <= end <= |data| && Decodes(data, at, end, next, key, es[i])
  {
    var shared := SharedAt(es, interval, i);
    var at, end := Offset(es, interval, i), Offset(es, interval, |es|);
    hide *;
    EntryFits(es, interval, i);
    EntryAt(es, interval, i);
    Rebuild(es, interval, i, key);
    DecodePieces(data, at, end, shared, key, es[i].key, es[i].value);
  }

  lemma Rebuild(es: seq<KV>, interval: nat, i: nat, key: Bytes)
    requires interval > 0 && i < |es| && (!IsRestart(interval, i) ==> key == es[i - 1].key)
    ensures Joins(key, SharedAt(es, interval, i), es[i].key)
  {
    hide Shared, IsRestart;
    SharedFacts(es, interval, i);
  }

  lemma DecodePieces(data: Bytes, at: nat, end: nat, shared: nat, last: Bytes, key: Bytes, value: Bytes)
    requires shared <= |key| < TWO32 && |value| < TWO32 && Joins(last, shared, key)
    requires var e := EntryBytes(shared, key, value);
             LiesAt(data, at, end, e)
    ensures Decodes(data, at, end, at + |EntryBytes(shared, key, value)|, last, KV(key, value))
  {
    hide DecodeEntry, EntryBytes, Varint;
    var e := EntryBytes(shared, key, value);
    var size := |Varint(shared)| + |Varint(|key| - shared)| + |Varint(|value|)|;
    EntryRoundTrip(shared, key, value, data[at + |e|..end]);
    SliceParts(data, at, end, e, size, key[shared..], value);
  }

  class Iter {
    const less: (Bytes, Bytes) -> bool
    const data: Bytes
    const restarts: nat        // offset of the restart array
    const numRestarts: nat
    ghost const es: seq<KV>    // the entries the block was built from
    ghost const interval: nat
    var current: nat           // offset of the current entry; `restarts` when not valid
    var restartIndex: nat
    var key: Bytes
    var valueStart: nat
    var valueEnd: nat
    var corrupt: bool
    ghost var at: nat          // index of the current entry

    constructor (less: (Bytes, Bytes) -> bool, data: Bytes, restarts: nat, numRestarts: nat, ghost es: seq<KV>,
                 ghost interval: nat)
      requires numRestarts > 0 && |data| == restarts + 4 * numRestarts + 4
      ensures this.less == less && this.data == data && this.restarts == restarts && this.numRestarts == numRestarts
      ensures this.es == es && this.interval == interval && Safe() && current == restarts && !corrupt
    {
      this.less, this.data, this.restarts, this.numRestarts := less, data, restarts, numRestarts;
      this.es, this.interval := es, interval;
      current, restartIndex, key, valueStart, valueEnd, corrupt := restarts, numRestarts, [], 0, 0, false;
      at := 0;
    }

    predicate Shape() {
      numRestarts > 0 && |data| == restarts + 4 * numRestarts + 4
    }

    /** What holds of any bytes. */
    ghost predicate Safe()
      reads this
    {
      && Shape() && current <= restarts
      && (current < restarts ==> restartIndex < numRestarts && valueStart <= valueEnd <= restarts && current < valueEnd)
    }

    /** The bytes are a block built from `es`. */
    ghost predicate Good()
    {
      interval > 0 && Fits(es, interval) && data == BlockOf(es, interval) &&
      restarts == Offset(es, interval, |es|) && numRestarts == |Restarts(interval, |es|)|
    }

    /** The iterator stands on entry `i`. */
    ghost predicate On(i: nat)
      requires Good()
      reads this
    {
      && i < |es| && current == Offset(es, interval, i) && key == es[i].key
      && valueStart <= valueEnd == Offset(es, interval, i + 1) <= |data| && data[valueStart..valueEnd] == es[i].value
      && restartIndex < numRestarts && Restarts(interval, |es|)[restartIndex] <= i
    }

    /** The next entry to parse is `j`, and the key holds what it shares. */
    ghost predicate Before(j: nat)
      requires Good()
      reads this
    {
      && j <= |es| && valueEnd == Offset(es, interval, j)
      && (j < |es| && !IsRestart(interval, j) ==> key == es[j - 1].key)
      && restartIndex < numRestarts && Restarts(interval, |es|)[restartIndex] <= j
    }

    /** A good block, and the iterator is either not valid or on entry `at`. */
    ghost predicate InSync()
      reads this
    {
      Good() && !corrupt && (current < restarts ==> On(at))
    }

    lemma OnIsBefore(i: nat)
      requires Good() && On(i)
      ensures Before(i + 1)
    {
    }

    function GetRestartPoint(index: nat): (offset: nat)
      requires Shape() && index < numRestarts
      ensures Good() ==> Restarts(interval, |es|)[index] <= |es|
      ensures Good() ==> offset == Offset(es, interval, Restarts(interval, |es|)[index])
    {
      hide Enc, Offset, Restarts, BlockOf, DecodeFixed32, Fits;
      assert Good() ==>
          Restarts(interval, |es|)[index] <= |es| &&
          DecodeFixed32(data[restarts + 4 * index..restarts + 4 * index + 4])
          == Offset(es, interval, Restarts(interval, |es|)[index]) by {
        if Good() {
          RestartRoundTrip(es, interval, index);
        }
      }
      DecodeFixed32(data[restarts + 4 * index..restarts + 4 * index + 4])
    }

    method CorruptionError()
      requires Shape()
      modifies this
      ensures Safe() && current == restarts && corrupt
    {
      current := restarts;
      restartIndex := numRestarts;
      corrupt := true;
      key := [];
      valueStart, valueEnd := 0, 0;
    }

    method SeekToRestartPoint(index: nat)
      requires Shape() && index < numRestarts
      modifies this
      ensures restartIndex == index && corrupt == old(corrupt) && current == old(current)
      ensures Good() ==> Before(Restarts(interval, |es|)[index])
    {
      hide Enc, Offset, BlockOf;
      key := [];
      restartIndex := index;
      valueStart := GetRestartPoint(index);
      valueEnd := valueStart;
    }

    /**
     Parses the entry after the current value. On any bytes it makes progress or ends; on a good block
     it reaches entry `j`.
     */
    method ParseNextKey(ghost j: nat) returns (ok: bool)
      requires Shape() && restartIndex < numRestarts
      modifies this
      ensures Safe() && (ok <==> current < restarts) && (ok ==> valueEnd > old(valueEnd) && current == old(valueEnd))
      ensures Good() && old(Before(j)) && !old(corrupt) ==> !corrupt && (ok <==> j < |es|) && (ok ==> On(j))
      ensures ok ==> at == j
    {
      hide Enc, Offset, BlockOf, Restarts, Counter, DecodeEntry, Fits, IsRestart;
      at := j;
      current := valueEnd;
      if Good() && Before(j) {
        EntryLimits(es, interval, j);
      }
      if current >= restarts {
        current := restarts;
        restartIndex := numRestarts;
        return false;
      }
      var h := DecodeEntry(data[current..restarts]);
      if Good() && Before(j) {
        DecodeAt(es, interval, j, data, key);
      }
      if h.None? || |key| < h.value.shared {
        CorruptionError();
        return false;
      }
      var p := current + h.value.size;
      key := key[..h.value.shared] + data[p..p + h.value.nonShared];
      valueStart, valueEnd := p + h.value.nonShared, p + h.value.nonShared + h.value.valueLength;
      AdvanceRestart(j);
      return true;
    }

    /** Moves the restart index up to the restart point at or before the current entry. */
    method AdvanceRestart(ghost j: nat)
      requires Safe() && current < restarts
      modifies `restartIndex
      ensures Safe()
      ensures Good() && j < |es| && current == Offset(es, interval, j) &&
              Restarts(interval, |es|)[old(restartIndex)] <= j
              ==> Restarts(interval, |es|)[restartIndex] <= j
    {
      hide Enc, Offset, BlockOf, Restarts;
      while restartIndex + 1 < numRestarts && GetRestartPoint(restartIndex + 1) < current
        invariant Safe() && current < restarts
        invariant Good() && j < |es| && current == Offset(es, interval, j) &&
                  Restarts(interval, |es|)[old(restartIndex)] <= j
                  ==> Restarts(interval, |es|)[restartIndex] <= j
        decreases numRestarts - restartIndex
      {
        if Good() && j < |es| && current == Offset(es, interval, j) {
          OffsetOrder(es, interval, Restarts(interval, |es|)[restartIndex + 1], j);
        }
        restartIndex := restartIndex + 1;
      }
    }

    method Next()
      requires Safe() && current < restarts
      modifies this
      ensures Safe()
      ensures old(InSync()) ==> InSync() && (current < restarts <==> old(at) + 1 < |es|)
      ensures old(InSync()) ==> (current < restarts ==> at == old(at) + 1)
    {
      hide Enc, Offset, BlockOf, Restarts, Fits, Good;
      if InSync() {
        OnIsBefore(at);
      }
      var ok := ParseNextKey(at + 1);
    }

    method Prev()
      requires Safe() && current < restarts
      modifies this
      ensures Safe()
      ensures old(InSync()) ==> InSync() && (current < restarts <==> old(at) > 0)
      ensures old(InSync()) ==> (current < restarts ==> at == old(at) - 1)
    {
      hide Enc, Offset, BlockOf, Restarts, Fits, Before;
      ghost var sync, target := InSync(), at;
      var original := current;
      var index: nat := restartIndex;
      while GetRestartPoint(index) >= original
        invariant index < numRestarts && original < restarts && corrupt == old(corrupt)
        invariant sync ==> target < |es| && original == Offset(es, interval, target)
        decreases index
      {
        if sync {
          OffsetOrder(es, interval, Restarts(interval, |es|)[index], target);
        }
        if index == 0 {
          current := restarts;
          restartIndex := numRestarts;
          return;
        }
        index := index - 1;
      }
      SeekToRestartPoint(index);
      ghost var j: nat := if sync then Restarts(interval, |es|)[index] else 0;
      if sync {
        OffsetOrder(es, interval, j, target);
      }
      var ok := ParseNextKey(j);
      while ok && valueEnd < original
        invariant Safe() && (ok <==> current < restarts)
        invariant sync ==> ok && !corrupt && at == j < target && On(j)
        decreases ok, if valueEnd < original then original - valueEnd else 0
      {
        if sync {
          OnIsBefore(j);
          OffsetOrder(es, interval, j + 1, target);
        }
        j := j + 1;
        ok := ParseNextKey(j);
      }
      if sync {
        OffsetOrder(es, interval, j + 1, target);
      }
    }

    /** Keys below `target` come before keys that are not. */
    ghost predicate Divides(target: Bytes) {
      forall a, b :: 0 <= a < b < |es| && less(es[b].key, target) ==> less(es[a].key, target)
    }

    /** Keys strictly ascend under a transitive order. */
    ghost predicate Ascends() {
      && (forall a, b :: 0 <= a < b < |es| ==> less(es[a].key, es[b].key))
      && (forall x, y, z :: less(x, y) && less(y, z) ==> less(x, z))
    }

    lemma AscendingDivides(target: Bytes)
      ensures Ascends() ==> Divides(target)
    {
    }

    /** The first `n` entries are below `target`. */
    ghost predicate BelowUpTo(target: Bytes, n: nat) {
      n <= |es| && forall k :: 0 <= k < n ==> less(es[k].key, target)
    }

    /** Positions at the first entry that is not below `target`. */
    method Seek(target: Bytes)
      requires Safe()
      modifies this
      ensures Safe()
      ensures old(InSync()) && (Ascends() || Divides(target)) ==>
                && InSync() && BelowUpTo(target, if current < restarts then at else |es|)
                && (current < restarts ==> !less(es[at].key, target))
    {
      hide Enc, Offset, BlockOf, Restarts, Fits, Before, Ascends, Divides;
      AscendingDivides(target);
      ghost var sync := InSync() && Divides(target);
      var found := SearchRestarts(target);
      if found.None? {
        CorruptionError();
        return;
      }
      SeekToRestartPoint(found.value);
      ghost var j: nat := if sync then Restarts(interval, |es|)[found.value] else 0;
      var parsed := true;
      while parsed
        invariant Shape() && restartIndex < numRestarts
        invariant sync ==> !corrupt && Before(j) && BelowUpTo(target, j)
        decreases if valueEnd < restarts then restarts - valueEnd else 0
      {
        parsed := ParseNextKey(j);
        if !parsed {
          return;
        }
        if !less(key, target) {
          return;
        }
        if sync {
          OneMoreBelow(target, j);
          OnIsBefore(j);
        }
        j := j + 1;
      }
    }

    lemma OneMoreBelow(target: Bytes, j: nat)
      requires BelowUpTo(target, j) && j < |es| && less(es[j].key, target)
      ensures BelowUpTo(target, j + 1)
    {
    }

    /**
     The last restart point whose key is below `target`, or the first restart point. None when an entry
     does not decode.
     */
    method SearchRestarts(target: Bytes) returns (r: Option<nat>)
      requires Shape()
      ensures r.Some? ==> r.value < numRestarts
      ensures Good() && Divides(target) ==> r.Some? && BelowUpTo(target, Restarts(interval, |es|)[r.value])
      ensures Good() && Divides(target) && r.Some? && r.value + 1 < numRestarts ==>
                !less(es[Restarts(interval, |es|)[r.value + 1]].key, target)
    {
      hide Enc, Offset, BlockOf, Restarts, Fits, Divides;
      var left: nat, right: nat := 0, numRestarts - 1;
      while left < right
        invariant left <= right < numRestarts
        invariant Good() && Divides(target) ==> BelowUpTo(target, Restarts(interval, |es|)[left])
        invariant Good() && Divides(target) && right + 1 < numRestarts ==>
                    !less(es[Restarts(interval, |es|)[right + 1]].key, target)
        decreases right - left
      {
        var mid := (left + right + 1) / 2;
        var midKey := RestartKey(mid);
        if midKey.None? {
          return None;
        }
        if less(midKey.value, target) {
          if Good() && Divides(target) {
            AllBelow(target, Restarts(interval, |es|)[mid]);
          }
          left := mid;
        } else {
          right := mid - 1;
        }
      }
      return Some(left);
    }

    lemma AllBelow(target: Bytes, i: nat)
      requires Divides(target) && i < |es| && less(es[i].key, target)
      ensures BelowUpTo(target, i)
    {
    }

    /** The key stored whole at a restart point. */
    method RestartKey(index: nat) returns (r: Option<Bytes>)
      requires Shape() && index < numRestarts
      ensures Good() && 0 < index ==> Restarts(interval, |es|)[index] < |es|
      ensures Good() && 0 < index ==> r == Some(es[Restarts(interval, |es|)[index]].key)
    {
      hide Enc, Offset, BlockOf, Restarts, Fits, DecodeEntry, IsRestart;
      var offset := GetRestartPoint(index);
      if Good() && 0 < index {
        DecodeAt(es, interval, Restarts(interval, |es|)[index], data, []);
      }
      if offset > restarts {
        return None;
      }
      var h := DecodeEntry(data[offset..restarts]);
      if h.None? || h.value.shared != 0 {
        return None;
      }
      r := Some(data[offset + h.value.size..offset + h.value.size + h.value.nonShared]);
      assert [] + r.value == r.value;
    }

    method SeekToFirst()
      requires Safe()
      modifies this
      ensures Safe()
      ensures old(InSync()) ==> InSync() && (current < restarts <==> |es| > 0) && (current < restarts ==> at == 0)
    {
      hide Enc, Offset, BlockOf, Restarts, Fits, Before;
      SeekToRestartPoint(0);
      var ok := ParseNextKey(0);
    }

    method SeekToLast()
      requires Safe()
      modifies this
      ensures Safe()
      ensures old(InSync()) ==> InSync() && (current < restarts <==> |es| > 0)
      ensures old(InSync()) ==> (current < restarts ==> at == |es| - 1)
    {
      hide Enc, Offset, BlockOf, Restarts, Fits, Before;
      ghost var sync := InSync();
      SeekToRestartPoint(numRestarts - 1);
      ghost var j: nat := if sync then Restarts(interval, |es|)[numRestarts - 1] else 0;
      assert sync && |es| > 0 ==> j < |es|;
      var ok := ParseNextKey(j);
      while ok && valueEnd < restarts
        invariant Safe() && (ok <==> current < restarts)
        invariant sync ==> !corrupt && (ok <==> |es| > 0) && (ok ==> at == j && On(j))
        decreases ok, if valueEnd < restarts then restarts - valueEnd else 0
      {
        if sync {
          OnIsBefore(j);
          EntryLimits(es, interval, j + 1);
        }
        j := j + 1;
        ok := ParseNextKey(j);
      }
      if sync && ok {
        EntryLimits(es, interval, j + 1);
      }
    }
  }

  /** Opening a block: bad, without restart points, or ready to iterate. */
  datatype Opened = BadContents | NoRestarts | Ready(iter: Iter)

  method NewIterator(less: (Bytes, Bytes) -> bool, data: Bytes, ghost es: seq<KV>, ghost interval: nat)
    returns (r: Opened)
    ensures r.Ready? ==> fresh(r.iter) && r.iter.Safe() && r.iter.data == data && r.iter.less == less && r.iter.es == es
    ensures interval > 0 && Fits(es, interval) && data == BlockOf(es, interval)
            ==> r.Ready? && r.iter.InSync() && r.iter.current == r.iter.restarts
  {
    hide BlockOf, Fits, Enc, Offset, Restarts;
    if interval > 0 && Fits(es, interval) && data == BlockOf(es, interval) {
      TrailerRoundTrip(es, interval);
    }
    var trailer := ParseTrailer(data);
    if trailer.None? {
      return BadContents;
    }
    if trailer.value.1 == 0 {
      return NoRestarts;
    }
    var it := new Iter(less, data, trailer.value.0, trailer.value.1, es, interval);
    return Ready(it);
  }

  lemma EntryLimits(es: seq<KV>, interval: nat, j: nat)
    requires interval > 0 && j <= |es|
    ensures Offset(es, interval, j) < Offset(es, interval, |es|) <==> j < |es|
  {
    OffsetOrder(es, interval, j, |es|);
  }

  lemma SharedFacts(es: seq<KV>, interval: nat, j: nat)
    requires interval > 0 && j < |es|
    ensures var n := SharedAt(es, interval, j);
            && n <= |es[j].key| && (IsRestart(interval, j) ==> n == 0)
            && (!IsRestart(interval, j) ==> n <= |es[j - 1].key| && es[j - 1].key[..n] + es[j].key[n..] == es[j].key)
            && (n == 0 ==> es[j].key[0..] == es[j].key)
  {
    var n := SharedAt(es, interval, j);
    assert es[j].key[..n] + es[j].key[n..] == es[j].key;
  }
}
