/**
 What the Protocol Buffers decoder lets through: of any bytes whatever, only messages in which the
 required fields are there and every value is within its declared bounds.
 */
module PbRefusals {
  import opened Keys
  import opened Coding
  import opened PbVarint
  import opened Nanopb

  /** The value is within its declared bounds; a message within it is sound itself. */
  ghost predicate Bounded(t: Type, v: Value)
    decreases t, 0
  {
    if Packable(t) then v.Num? && NumFits(t, v.n)
    else if t.SubmessageT? then v.Msg? && Sound(t.desc, v.m)
    else if t.BytesT? then v.Blob? && |v.b| <= t.max
    else v.Blob? && |v.b| < t.max
  }

  ghost predicate Room(f: Field, vs: seq<Value>)
    decreases f, 0
  {
    |vs| <= (if f.rule.Repeated? then f.rule.max else 1) && forall j :: 0 <= j < |vs| ==> Bounded(f.typ, vs[j])
  }

  /** A message with what has arrived so far. */
  ghost predicate Partial(d: Desc, m: seq<seq<Value>>)
    decreases d, 0
  {
    |m| == |d.fields| && forall i :: 0 <= i < |d.fields| ==> Room(d.fields[i], m[i])
  }

  /** Nothing beyond its bounds, and each of the first 64 required fields holds its one value. */
  ghost predicate Sound(d: Desc, m: seq<seq<Value>>)
    decreases d, 1
  {
    Partial(d, m)
    && forall i :: 0 <= i < |d.fields| && d.fields[i].rule.Required? && RequiredBefore(d, i) < 64 ==> |m[i]| == 1
  }

  /** The required fields that were seen hold a value. */
  ghost predicate SeenHold(d: Desc, m: seq<seq<Value>>, seen: set<nat>)
    requires |m| == |d.fields|
  {
    forall i :: 0 <= i < |d.fields| && i in seen && d.fields[i].rule.Required? ==> |m[i]| == 1
  }

  lemma NumInside(t: Type, b: Bytes)
    requires Packable(t)
    ensures DecNum(t, b).Taken? ==> DecNum(t, b).value.Num? && NumFits(t, DecNum(t, b).value.n)
  {
    hide Dec32, Dec64;
  }

  lemma {:induction false} PackedInside(f: Field, b: Bytes, vs: seq<Value>)
    requires Packable(f.typ) && f.rule.Repeated? && Room(f, vs)
    ensures var all := DecPacked(f.typ, b, vs, f.rule.max); all.Some? ==> Room(f, all.value)
    decreases |b|
  {
    hide DecNum, NumFits;
    NumInside(f.typ, b);
    if b != [] && |vs| < f.rule.max {
      var v := DecNum(f.typ, b);
      if v.Taken? {
        PackedInside(f, v.rest, vs + [v.value]);
      }
    }
  }

  /** What a value may be decoded over: a message within bounds. */
  ghost predicate Over(t: Type, init: Value) {
    t.SubmessageT? && init.Msg? ==> Partial(t.desc, init.m)
  }

  lemma DefaultOver(t: Type)
    ensures Over(t, Default(t))
  {
  }

  lemma EmptyPartial(d: Desc)
    ensures Partial(d, Empty(d)) && SeenHold(d, Empty(d), {})
  {
  }

  lemma {:induction false} ValueInside(t: Type, b: Bytes, init: Value)
    requires Over(t, init)
    ensures DecValue(t, b, init).Taken? ==> Bounded(t, DecValue(t, b, init).value)
    decreases t, |b|, 0
  {
    hide DecNum, Length, DecMsg, NumFits, Partial;
    if Packable(t) {
      NumInside(t, b);
    } else if t.SubmessageT? && Length(b).Taken? {
      EmptyPartial(t.desc);
      var start := if init.Msg? && |init.m| == |t.desc.fields| then init.m else Empty(t.desc);
      FieldsInside(t.desc, Length(b).value, start, {});
    }
  }

  lemma {:induction false} FieldInside(f: Field, wire: nat, b: Bytes, vs: seq<Value>)
    requires Room(f, vs)
    ensures var r := DecField(f, wire, b, vs);
            r.Taken? ==> Room(f, r.value) && (!f.rule.Repeated? ==> |r.value| == 1)
    decreases f, |b|, 0
  {
    hide DecValue, Length, DecPacked, Default, Over, Bounded;
    DefaultOver(f.typ);
    if f.rule.Repeated? && wire == 2 && Packable(f.typ) {
      if Length(b).Taken? {
        PackedInside(f, Length(b).value, vs);
      }
    } else if f.rule.Repeated? {
      ValueInside(f.typ, b, Default(f.typ));
    } else {
      if vs != [] {
        BoundedOver(f.typ, vs[0]);
      }
      ValueInside(f.typ, b, if vs != [] then vs[0] else Default(f.typ));
    }
  }

  lemma BoundedOver(t: Type, v: Value)
    requires Bounded(t, v)
    ensures Over(t, v)
  {
  }

  lemma {:induction false} FieldsInside(d: Desc, b: Bytes, m: seq<seq<Value>>, seen: set<nat>)
    requires Partial(d, m) && SeenHold(d, m, seen)
    ensures DecMsg(d, b, m, seen).Some? ==> Sound(d, DecMsg(d, b, m, seen).value)
    decreases d, |b|, 0
  {
    hide DecField, Dec32, Pass, Room, RequiredBefore;
    if b != [] && Dec32(b).Some? && Dec32(b).value.value != 0 {
      var t := Dec32(b).value;
      var rest, wire := b[t.size..], t.value % 8;
      var i := FindTag(d, t.value / 8, 0);
      if i == |d.fields| {
        var s := Pass(d, t.value / 8, wire, rest);
        if s.Taken? {
          FieldsInside(d, s.rest, m, seen);
        }
      } else {
        FieldInside(d.fields[i], wire, rest, m[i]);
        var vs := DecField(d.fields[i], wire, rest, m[i]);
        if vs.Taken? {
          FieldsInside(d, vs.rest, m[i := vs.value], seen + {i});
        }
      }
    }
  }

  /**
   Of any bytes, a message that decodes is sound: each of the first 64 required fields holds exactly
   one value, an optional field at most one and a repeated field at most its bound, and each
   value, in the messages within the message too, is within its declared size.
   */
  lemma DecodedIsSound(d: Desc, b: Bytes)
    ensures DecMsg(d, b, Empty(d), {}).Some? ==> Sound(d, DecMsg(d, b, Empty(d), {}).value)
  {
    hide *;
    EmptyPartial(d);
    FieldsInside(d, b, Empty(d), {});
  }

  // Numbers that do not fit their field

  /** A number is read if it fits the field, and refused, not cut, if it does not. */
  lemma UnsignedExactly(size: nat, u: u64, tail: Bytes)
    requires SizeOk(size)
    ensures DecNum(UVarintT(size), Varint(u) + tail) == if u < Span(size) then Taken(Num(u), tail) else Bad
  {
    hide Varint, Dec64;
    Num64Back(u, tail);
  }

  lemma ZigZagExactly(size: nat, n: int, tail: Bytes)
    requires SizeOk(size) && -(TWO64 / 2) <= n < TWO64 / 2
    ensures DecNum(SVarintT(size), Varint(ZigZag(n)) + tail)
         == if NumFits(SVarintT(size), n) then Taken(Num(n), tail) else Bad
  {
    hide Varint, Dec64, ZigZag, UnZigZag;
    ZigZagBack(n);
    Num64Back(ZigZag(n), tail);
  }

  /** Of a number for a field of at most four bytes, the low 32 bits count, as a signed number. */
  lemma SignedExactly(size: nat, n: int, low: int, tail: Bytes)
    requires SizeOk(size) && -(TWO64 / 2) <= n < TWO64 / 2
    requires if size == 8 then low == n else -(TWO32 / 2) <= low < TWO32 / 2 && (n - low) % TWO32 == 0
    ensures DecNum(VarintT(size), Varint(Unsigned(n)) + tail)
         == if NumFits(VarintT(size), low) then Taken(Num(low), tail) else Bad
  {
    hide Varint, Dec64;
    Num64Back(Unsigned(n), tail);
    if size == 8 {
      SignedBack(size, n);
    } else {
      LowSigned(n, low);
    }
  }

  lemma Whole(d: int)
    requires d % TWO32 == 0
    ensures d == d / TWO32 * TWO32
  {
  }

  lemma Remainder(q: int, r: int)
    requires 0 <= r < TWO32
    ensures (q * TWO32 + r) % TWO32 == r
  {
  }

  lemma LowSigned(n: int, low: int)
    requires -(TWO64 / 2) <= n < TWO64 / 2 && -(TWO32 / 2) <= low < TWO32 / 2 && (n - low) % TWO32 == 0
    ensures Signed32(Unsigned(n)) == low
  {
    Whole(n - low);
    var k := (n - low) / TWO32 + if n < 0 then TWO32 else 0;
    assert Unsigned(n) == k * TWO32 + low;
    if low >= 0 {
      Remainder(k, low);
    } else {
      Remainder(k - 1, low + TWO32);
      assert Unsigned(n) == (k - 1) * TWO32 + (low + TWO32);
    }
  }

  // Bytes that are cut short

  lemma {:induction false} DigitsCut(b: Bytes, v: nat)
    requires b < Varint(v)
    ensures forall i :: 0 <= i < |b| ==> b[i] >= 128
    decreases v
  {
    if b != [] {
      assert b[0] == Varint(v)[0];
      if v >= 128 {
        assert Varint(v)[1..] == Varint(v / 128);
        DigitsCut(b[1..], v / 128);
        assert forall i :: 1 <= i < |b| ==> b[i] == b[1..][i - 1];
      }
    }
  }

  /** Without a last digit there is no number. */
  lemma {:induction false} NoEnd(b: Bytes, i: nat, result: u32)
    requires i >= 1 && forall k :: 0 <= k < |b| ==> b[k] >= 128
    ensures Dec32Rest(b, i, result).None? && SkipVarint(b).Bad?
    decreases |b|
  {
    hide Absorbed;
    if b != [] {
      NoEnd(b[1..], i + 1, result);
      var next := Absorbed(b[0], i, result);
      if next.Some? {
        NoEnd(b[1..], i + 1, next.value);
      }
    }
  }

  lemma VarintCutShort(b: Bytes, v: nat)
    requires b < Varint(v)
    ensures Dec32(b).None? && Dec64(b).None? && SkipVarint(b).Bad?
  {
    VarintCut(b, v, 10);
    DigitsCut(b, v);
    NoEnd(b, 1, 0);
    if b != [] {
      NoEnd(b[1..], 1, b[0] - 128);
    }
  }

  lemma LengthCut(b: Bytes, s: Bytes)
    requires b < LengthPrefixed(s) && |s| < TWO32
    ensures Length(b).Bad?
  {
    hide Varint, Dec32;
    var n := Varint(|s|);
    CutWhere(b, n, s);
    if b < n {
      VarintCutShort(b, |s|);
    } else {
      var tail := b[|n|..];
      Dec32Back(|s|, tail);
    }
  }

  /** A value that is cut short is refused, by the field it is for and by a receiver that skips it. */
  lemma ValueCut(t: Type, v: Value, b: Bytes, init: Value)
    requires Fits(t, v) && b < EncValue(t, v)
    ensures DecValue(t, b, init).Bad? && Skip(Wire(t), b).Bad?
  {
    hide Length, LengthPrefixed, Varint, Dec32, Dec64, SkipVarint, EncMsg, DecMsg;
    if t.SubmessageT? {
      LengthCut(b, EncMsg(t.desc, v.m, 0));
    } else if !Packable(t) {
      LengthCut(b, v.b);
    } else {
      match t
      case BoolT => VarintCutShort(b, v.n);
      case VarintT(_) => VarintCutShort(b, Unsigned(v.n));
      case UVarintT(_) => VarintCutShort(b, v.n);
      case SVarintT(_) => VarintCutShort(b, ZigZag(v.n));
      case Fixed32T =>
      case Fixed64T =>
    }
  }

  /** What stands at the head of a field. */
  lemma HeadIs(tag: nat, wire: nat, rest: Bytes)
    requires 0 < tag < 0x2000_0000 && wire < 8
    ensures var b := TagBytes(tag, wire) + rest;
            var t := Dec32(b);
            && b != [] && t.Some? && b[t.value.size..] == rest && t.value.value != 0
            && t.value.value / 8 == tag && t.value.value % 8 == wire
  {
    hide Varint, Dec32;
    Dec32Back(8 * tag + wire, rest);
    assert (TagBytes(tag, wire) + rest)[|TagBytes(tag, wire)|..] == rest;
    assert (8 * tag + wire) / 8 == tag && (8 * tag + wire) % 8 == wire;
  }

  /** A field that the receiver does not have is refused if nothing says how long it is. */
  lemma UnknownWireRefused(d: Desc, tag: nat, wire: nat, rest: Bytes, m: seq<seq<Value>>, seen: set<nat>)
    requires 0 < tag < 0x2000_0000 && |m| == |d.fields| && forall i :: 0 <= i < |d.fields| ==> d.fields[i].tag != tag
    requires wire == 3 || wire == 4 || wire == 6 || wire == 7
    ensures DecMsg(d, TagBytes(tag, wire) + rest, m, seen).None?
  {
    hide TagBytes, Dec32, FindTag;
    HeadIs(tag, wire, rest);
  }

  /** A field whose value is cut short spoils the message, known to the receiver or not. */
  lemma MessageCut(d: Desc, f: Field, v: Value, b: Bytes, m: seq<seq<Value>>, seen: set<nat>)
    requires |m| == |d.fields| && Fits(f.typ, v) && b < EncValue(f.typ, v) && 0 < f.tag < 0x2000_0000
    requires forall i :: 0 <= i < |d.fields| && d.fields[i].tag == f.tag ==> d.fields[i] == f
    ensures DecMsg(d, TagBytes(f.tag, Wire(f.typ)) + b, m, seen).None?
  {
    hide TagBytes, Dec32, DecField, Skip, Fits, EncValue;
    HeadIs(f.tag, Wire(f.typ), b);
    ValueCut(f.typ, v, b, Default(f.typ));
    var i := FindTag(d, f.tag, 0);
    if i < |d.fields| {
      FieldRefused(f, v, b, m[i]);
    }
  }

  lemma FieldRefused(f: Field, v: Value, b: Bytes, vs: seq<Value>)
    requires Fits(f.typ, v) && b < EncValue(f.typ, v)
    ensures DecField(f, Wire(f.typ), b, vs).Bad?
  {
    hide DecValue, Fits, EncValue, Default, Skip;
    ValueCut(f.typ, v, b, Default(f.typ));
    if vs != [] {
      ValueCut(f.typ, v, b, vs[0]);
    }
  }

  /** A zero in place of a field ends the message, whatever stands behind it. */
  lemma ZeroEnds(d: Desc, tail: Bytes, m: seq<seq<Value>>, seen: set<nat>)
    requires |m| == |d.fields|
    ensures DecMsg(d, [0] + tail, m, seen) == DecMsg(d, [], m, seen)
  {
    assert ([0] + tail)[0] == 0;
  }
}
