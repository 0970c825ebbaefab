/**
 Writing messages to an output stream. The encoder runs twice over a submessage or a packed
 array: once on a stream that only counts, to know the length, and once to write.
 */
module PbEncode {
  import opened Keys
  import opened Coding
  import opened PbVarint
  import opened Nanopb

  /** A stream that counts bytes, or one that writes at most `maxSize` of them. */
  datatype Stream = Stream(sizing: bool, maxSize: nat, written: nat, out: Bytes)

  const SIZING: Stream := Stream(true, 0, 0, [])

  ghost predicate StreamOk(s: Stream) {
    !s.sizing ==> s.written <= s.maxSize
  }

  /** The call put exactly `enc` into the stream, or failed because there is no room for it. */
  ghost predicate Wrote(s: Stream, s': Stream, ok: bool, enc: Bytes) {
    if s.sizing then ok && s' == s.(written := s.written + |enc|)
    else
      && (ok <==> s.written + |enc| <= s.maxSize) && !s'.sizing && s'.maxSize == s.maxSize
      && (ok ==> s' == s.(written := s.written + |enc|, out := s.out + enc))
  }

  lemma WroteNothing(s: Stream)
    requires StreamOk(s)
    ensures Wrote(s, s, true, [])
  {
    assert s.out + [] == s.out;
  }

  /** One piece after another. */
  lemma WroteBoth(s: Stream, s1: Stream, s2: Stream, ok: bool, a: Bytes, b: Bytes)
    requires Wrote(s, s1, true, a) && Wrote(s1, s2, ok, b)
    ensures Wrote(s, s2, ok, a + b) && StreamOk(s1)
  {
    assert s.out + a + b == s.out + (a + b);
  }

  /** What does not fit does not fit with more behind it. */
  lemma NoRoom(s: Stream, s': Stream, a: Bytes, b: Bytes)
    requires Wrote(s, s', false, a)
    ensures Wrote(s, s', false, a + b)
  {
  }

  method Write(s: Stream, buf: Bytes) returns (ok: bool, s': Stream)
    requires StreamOk(s)
    ensures Wrote(s, s', ok, buf)
  {
    if |buf| > 0 && !s.sizing {
      if s.written + |buf| > s.maxSize {
        return false, s;
      }
      return true, s.(written := s.written + |buf|, out := s.out + buf);
    }
    assert |buf| == 0 ==> s.out + buf == s.out;
    return true, s.(written := s.written + |buf|);
  }

  method EncodeVarint(s: Stream, value: u64) returns (ok: bool, s': Stream)
    requires StreamOk(s)
    ensures Wrote(s, s', ok, Varint(value))
  {
    var buffer := EncodeVarint64(value);
    ok, s' := Write(s, buffer);
  }

  method EncodeTag(s: Stream, tag: nat, wire: nat) returns (ok: bool, s': Stream)
    requires StreamOk(s) && tag < 0x2000_0000 && wire < 8
    ensures Wrote(s, s', ok, TagBytes(tag, wire))
  {
    ok, s' := EncodeVarint(s, 8 * tag + wire);
  }

  method EncodeString(s: Stream, b: Bytes) returns (ok: bool, s': Stream)
    requires StreamOk(s) && |b| < TWO64
    ensures Wrote(s, s', ok, LengthPrefixed(b))
  {
    hide Wrote;
    var s1;
    ok, s1 := EncodeVarint(s, |b|);
    if !ok {
      NoRoom(s, s1, Varint(|b|), b);
      return false, s1;
    }
    WroteNothing(s);
    RoomLeft(s, s1, Varint(|b|));
    ok, s' := Write(s1, b);
    WroteBoth(s, s1, s', ok, Varint(|b|), b);
  }

  lemma RoomLeft(s: Stream, s1: Stream, a: Bytes)
    requires Wrote(s, s1, true, a)
    ensures StreamOk(s1)
  {
  }

  method EncodeNum(s: Stream, t: Type, n: int) returns (ok: bool, s': Stream)
    requires StreamOk(s) && Packable(t) && NumFits(t, n)
    ensures Wrote(s, s', ok, EncNum(t, n))
  {
    hide Wrote, Varint, Fixed32, Fixed64;
    match t
    case BoolT => ok, s' := EncodeVarint(s, n);
    case VarintT(_) => ok, s' := EncodeVarint(s, Unsigned(n));
    case UVarintT(_) => ok, s' := EncodeVarint(s, n);
    case SVarintT(_) => ok, s' := EncodeVarint(s, ZigZag(n));
    case Fixed32T => ok, s' := Write(s, Fixed32(n));
    case Fixed64T => ok, s' := Write(s, Fixed64(n));
  }

  /** The items of a packed array. */
  method EncodeItems(s: Stream, t: Type, vs: seq<Value>) returns (ok: bool, s': Stream)
    requires StreamOk(s) && Packable(t) && forall j :: 0 <= j < |vs| ==> Fits(t, vs[j])
    ensures Wrote(s, s', ok, EncPacked(t, vs, 0))
  {
    hide Wrote, EncNum;
    s' := s;
    ghost var done: Bytes := [];
    WroteNothing(s);
    assert done + EncPacked(t, vs, 0) == EncPacked(t, vs, 0);
    for j := 0 to |vs|
      invariant StreamOk(s') && Wrote(s, s', true, done) && done + EncPacked(t, vs, j) == EncPacked(t, vs, 0)
    {
      assert Fits(t, vs[j]);
      var s1;
      ghost var piece, rest := EncNum(t, vs[j].n), EncPacked(t, vs, j + 1);
      assert done + (piece + rest) == (done + piece) + rest;
      ok, s1 := EncodeNum(s', t, vs[j].n);
      WroteBoth(s, s', s1, ok, done, piece);
      if !ok {
        NoRoom(s, s1, done + piece, rest);
        return false, s1;
      }
      RoomLeft(s, s1, done + piece);
      s', done := s1, done + piece;
    }
    assert done + [] == done;
    ok := true;
  }

  lemma {:induction false} FixedItems(t: Type, vs: seq<Value>, j: nat)
    requires (t.Fixed32T? || t.Fixed64T?) && j <= |vs| && forall k :: 0 <= k < |vs| ==> Fits(t, vs[k])
    ensures |EncPacked(t, vs, j)| == (if t.Fixed32T? then 4 else 8) * (|vs| - j)
    decreases |vs| - j
  {
    if j < |vs| {
      assert Fits(t, vs[j]);
      FixedItems(t, vs, j + 1);
    }
  }

  /** The size of a packed array: known for fixed sizes, counted otherwise. */
  method PackedSize(t: Type, vs: seq<Value>) returns (size: nat)
    requires Packable(t) && forall j :: 0 <= j < |vs| ==> Fits(t, vs[j])
    ensures size == |EncPacked(t, vs, 0)|
  {
    if t.Fixed32T? {
      FixedItems(t, vs, 0);
      return 4 * |vs|;
    } else if t.Fixed64T? {
      FixedItems(t, vs, 0);
      return 8 * |vs|;
    }
    var ok, s := EncodeItems(SIZING, t, vs);
    size := s.written;
  }

  /** Passes over bytes that a sizing stream only counts. */
  lemma Counted(s: Stream, enc: Bytes)
    requires s.sizing
    ensures Wrote(s, s.(written := s.written + |enc|), true, enc)
  {
  }

  method EncodePackedArray(s: Stream, f: Field, vs: seq<Value>) returns (ok: bool, s': Stream)
    requires StreamOk(s) && f.tag < 0x2000_0000 && f.rule.Repeated? && Packable(f.typ) && FieldFits(f, vs) && vs != []
    ensures Wrote(s, s', ok, EncField(f, vs))
  {
    hide Wrote, EncPacked, TagBytes, Fits;
    ghost var a, items := TagBytes(f.tag, 2), EncPacked(f.typ, vs, 0);
    ok, s' := EncodeTag(s, f.tag, 2);
    if !ok {
      NoRoom(s, s', a, LengthPrefixed(items));
      return;
    }
    RoomLeft(s, s', a);
    var size := PackedSize(f.typ, vs);
    var s1, s2 := s', s';
    ok, s2 := EncodeVarint(s1, size);
    WroteBoth(s, s1, s2, ok, a, Varint(size));
    assert (a + Varint(size)) + items == a + (Varint(size) + items);
    if !ok {
      NoRoom(s, s2, a + Varint(size), items);
      return false, s2;
    }
    RoomLeft(s, s2, a + Varint(size));
    SameKind(s, s2, a + Varint(size));
    if s.sizing {
      Counted(s2, items);
      s' := s2.(written := s2.written + size);
      ok := true;
    } else {
      ok, s' := EncodeItems(s2, f.typ, vs);
    }
    WroteBoth(s, s2, s', ok, a + Varint(size), items);
  }

  lemma SameKind(s: Stream, s': Stream, a: Bytes)
    requires Wrote(s, s', true, a)
    ensures s'.sizing == s.sizing && s'.maxSize == s.maxSize
  {
  }

  method EncodeValue(s: Stream, t: Type, v: Value) returns (ok: bool, s': Stream)
    requires StreamOk(s) && Fits(t, v) && (t.SubmessageT? ==> DescOk(t.desc))
    ensures Wrote(s, s', ok, EncValue(t, v))
    decreases t, 0, 0
  {
    hide Wrote, EncNum, LengthPrefixed, NumFits;
    if Packable(t) {
      ok, s' := EncodeNum(s, t, v.n);
    } else if t.SubmessageT? {
      ok, s' := EncodeSubmessage(s, t.desc, v.m);
    } else {
      ok, s' := EncodeString(s, v.b);
    }
  }

  /** Counts the message, writes the length, and then writes the message into exactly that room. */
  method EncodeSubmessage(s: Stream, d: Desc, m: seq<seq<Value>>) returns (ok: bool, s': Stream)
    requires StreamOk(s) && DescOk(d) && MsgFits(d, m) && |EncMsg(d, m, 0)| < TWO32
    ensures Wrote(s, s', ok, LengthPrefixed(EncMsg(d, m, 0)))
    decreases d, |d.fields| + 2, 0
  {
    ghost var enc := EncMsg(d, m, 0);
    var sub;
    ok, sub := EncodeMsg(SIZING, d, m);
    var size := sub.written;
    assert ok && size == |enc|;
    hide EncMsg, MsgFits, DescOk;
    var s1;
    ok, s1 := EncodeVarint(s, size);
    if !ok {
      NoRoom(s, s1, Varint(size), enc);
      return false, s1;
    }
    RoomLeft(s, s1, Varint(size));
    SameKind(s, s1, Varint(size));
    if s.sizing {
      Counted(s1, enc);
      s' := s1.(written := s1.written + size);
    } else if s1.written + size > s1.maxSize {
      ok, s' := false, s1;
    } else {
      ok, sub := EncodeMsg(Stream(false, size, 0, []), d, m);
      assert [] + enc == enc;
      s' := s1.(written := s1.written + sub.written, out := s1.out + sub.out);
      if sub.written != size {
        return false, s';
      }
    }
    WroteBoth(s, s1, s', ok, Varint(size), enc);
  }

  /** The values of a field that is not packed. */
  method EncodeEach(s: Stream, f: Field, vs: seq<Value>) returns (ok: bool, s': Stream)
    requires StreamOk(s) && f.tag < 0x2000_0000 && FieldFits(f, vs) && (f.typ.SubmessageT? ==> DescOk(f.typ.desc))
    ensures Wrote(s, s', ok, EncEach(f, vs, 0))
    decreases f, 0, 0
  {
    hide Wrote, EncValue, TagBytes, Fits;
    s' := s;
    ghost var done: Bytes := [];
    WroteNothing(s);
    assert done + EncEach(f, vs, 0) == EncEach(f, vs, 0);
    for j := 0 to |vs|
      invariant StreamOk(s') && Wrote(s, s', true, done) && done + EncEach(f, vs, j) == EncEach(f, vs, 0)
    {
      assert Fits(f.typ, vs[j]);
      var s1, s2;
      ghost var tag, piece, rest := TagBytes(f.tag, Wire(f.typ)), EncValue(f.typ, vs[j]), EncEach(f, vs, j + 1);
      Reassociated(done, tag, piece, rest);
      ok, s1 := EncodeTag(s', f.tag, Wire(f.typ));
      WroteBoth(s, s', s1, ok, done, tag);
      if !ok {
        NoRoom(s, s1, done + tag, piece + rest);
        return false, s1;
      }
      RoomLeft(s, s1, done + tag);
      ok, s2 := EncodeValue(s1, f.typ, vs[j]);
      WroteBoth(s, s1, s2, ok, done + tag, piece);
      if !ok {
        NoRoom(s, s2, done + tag + piece, rest);
        return false, s2;
      }
      RoomLeft(s, s2, done + tag + piece);
      s', done := s2, done + tag + piece;
    }
    assert done + [] == done;
    ok := true;
  }

  lemma Reassociated(done: Bytes, tag: Bytes, piece: Bytes, rest: Bytes)
    ensures done + (tag + piece + rest) == (done + tag) + (piece + rest) == (done + tag + piece) + rest
  {
  }

  method EncodeField(s: Stream, f: Field, vs: seq<Value>) returns (ok: bool, s': Stream)
    requires StreamOk(s) && f.tag < 0x2000_0000 && FieldFits(f, vs) && (f.typ.SubmessageT? ==> DescOk(f.typ.desc))
    ensures Wrote(s, s', ok, EncField(f, vs))
    decreases f, 1, 0
  {
    hide Wrote, Fits;
    if f.rule.Repeated? && Packable(f.typ) {
      if vs == [] {
        WroteNothing(s);
        return true, s;
      }
      ok, s' := EncodePackedArray(s, f, vs);
    } else {
      ok, s' := EncodeEach(s, f, vs);
    }
  }

  /**
   Encodes a message. A sizing stream counts exactly the bytes of the encoding; a real stream
   receives exactly these bytes if it has room for them, and otherwise the call fails.
   */
  method EncodeMsg(s: Stream, d: Desc, m: seq<seq<Value>>) returns (ok: bool, s': Stream)
    requires StreamOk(s) && DescOk(d) && MsgFits(d, m)
    ensures Wrote(s, s', ok, EncMsg(d, m, 0))
    decreases d, |d.fields| + 1, 0
  {
    hide Wrote, EncField, FieldFits;
    s' := s;
    ghost var done: Bytes := [];
    WroteNothing(s);
    assert done + EncMsg(d, m, 0) == EncMsg(d, m, 0);
    for i := 0 to |d.fields|
      invariant StreamOk(s') && Wrote(s, s', true, done) && done + EncMsg(d, m, i) == EncMsg(d, m, 0)
    {
      assert FieldFits(d.fields[i], m[i]);
      var s1;
      ghost var piece, rest := EncField(d.fields[i], m[i]), EncMsg(d, m, i + 1);
      assert done + (piece + rest) == (done + piece) + rest;
      ok, s1 := EncodeField(s', d.fields[i], m[i]);
      WroteBoth(s, s', s1, ok, done, piece);
      if !ok {
        NoRoom(s, s1, done + piece, rest);
        return false, s1;
      }
      RoomLeft(s, s1, done + piece);
      s', done := s1, done + piece;
    }
    assert done + [] == done;
    ok := true;
  }

  /** The size found by counting is the length of what a real stream receives. */
  method GetEncodedSize(d: Desc, m: seq<seq<Value>>) returns (size: nat)
    requires DescOk(d) && MsgFits(d, m)
    ensures size == |EncMsg(d, m, 0)|
  {
    var ok, s := EncodeMsg(SIZING, d, m);
    size := s.written;
  }

  /** Encoding into a buffer and decoding gives back the message, and a smaller buffer is refused. */
  method EncodeToBuffer(d: Desc, m: seq<seq<Value>>, size: nat) returns (ok: bool, buffer: Bytes)
    requires DescOk(d) && MsgFits(d, m)
    ensures ok <==> |EncMsg(d, m, 0)| <= size
    ensures ok ==> DecMsg(d, buffer, Empty(d), {}) == Some(m)
  {
    hide EncMsg, DecMsg;
    var s;
    ok, s := EncodeMsg(Stream(false, size, 0, []), d, m);
    assert [] + EncMsg(d, m, 0) == EncMsg(d, m, 0);
    MsgBack(d, m);
    buffer := s.out;
  }
}
