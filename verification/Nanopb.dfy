/**
 The Protocol Buffers codec: messages described by field tables, with required, optional and
 repeated fields of statically bounded size.
 */
module Nanopb {
  import opened Keys
  import opened Coding
  import opened PbVarint

  /** How a value is stored: integers of 1, 2, 4 or 8 bytes, bounded byte strings, or a message. */
  datatype Type =
    | BoolT
    | VarintT(size: nat)
    | UVarintT(size: nat)
    | SVarintT(size: nat)
    | Fixed32T
    | Fixed64T
    | BytesT(max: nat)
    | StringT(max: nat)       // with room for the terminator
    | SubmessageT(desc: Desc)

  datatype Rule = Required | Optional | Repeated(max: nat)

  datatype Field = Field(tag: nat, rule: Rule, typ: Type)

  datatype Desc = Desc(fields: seq<Field>)

  /** A message holds, for each field, the values present: one if required, at most one if optional. */
  datatype Value = Num(n: int) | Blob(b: Bytes) | Msg(m: seq<seq<Value>>)

  predicate Packable(t: Type) {
    !t.BytesT? && !t.StringT? && !t.SubmessageT?
  }

  function Wire(t: Type): nat {
    match t
    case Fixed32T => 5
    case Fixed64T => 1
    case BytesT(_) => 2
    case StringT(_) => 2
    case SubmessageT(_) => 2
    case _ => 0
  }

  /** Two to the power of the number of bits of an integer of `size` bytes. */
  function Span(size: nat): nat {
    if size == 1 then 0x100 else if size == 2 then 0x1_0000 else if size == 4 then TWO32 else TWO64
  }

  predicate SizeOk(size: nat) {
    size == 1 || size == 2 || size == 4 || size == 8
  }

  predicate NumFits(t: Type, n: int)
    requires Packable(t)
  {
    match t
    case BoolT => 0 <= n < 2
    case VarintT(size) => SizeOk(size) && -(Span(size) / 2) <= n < Span(size) / 2
    case UVarintT(size) => SizeOk(size) && 0 <= n < Span(size)
    case SVarintT(size) => SizeOk(size) && -(Span(size) / 2) <= n < Span(size) / 2
    case Fixed32T => 0 <= n < TWO32
    case Fixed64T => 0 <= n < TWO64
  }

  // Encoding

  function EncNum(t: Type, n: int): Bytes
    requires Packable(t) && NumFits(t, n)
  {
    match t
    case BoolT => Varint(n)
    case VarintT(_) => Varint(Unsigned(n))
    case UVarintT(_) => Varint(n)
    case SVarintT(_) => Varint(ZigZag(n))
    case Fixed32T => Fixed32(n)
    case Fixed64T => Fixed64(n)
  }

  function TagBytes(tag: nat, wire: nat): Bytes {
    Varint(8 * tag + wire)
  }

  function EncValue(t: Type, v: Value): Bytes
    decreases t, 0
  {
    if Packable(t) then (if v.Num? && NumFits(t, v.n) then EncNum(t, v.n) else [])
    else if t.SubmessageT? then LengthPrefixed(if v.Msg? then EncMsg(t.desc, v.m, 0) else [])
    else LengthPrefixed(if v.Blob? then v.b else [])
  }

  /** The items of a packed array. */
  function EncPacked(t: Type, vs: seq<Value>, j: nat): Bytes
    requires j <= |vs|
    decreases t, |vs| - j + 1
  {
    if j == |vs| then [] else EncValue(t, vs[j]) + EncPacked(t, vs, j + 1)
  }

  /** The values of a field from the `j`-th on, each with its tag. */
  function EncEach(f: Field, vs: seq<Value>, j: nat): Bytes
    requires j <= |vs|
    decreases f, |vs| - j
  {
    if j == |vs| then [] else TagBytes(f.tag, Wire(f.typ)) + EncValue(f.typ, vs[j]) + EncEach(f, vs, j + 1)
  }

  /** A field; arrays of numbers are always packed, and an empty array leaves nothing. */
  function EncField(f: Field, vs: seq<Value>): Bytes
    decreases f, |vs| + 1
  {
    if f.rule.Repeated? && Packable(f.typ) then
      if vs == [] then [] else TagBytes(f.tag, 2) + LengthPrefixed(EncPacked(f.typ, vs, 0))
    else EncEach(f, vs, 0)
  }

  /** The fields of a message from the `i`-th on. */
  function EncMsg(d: Desc, m: seq<seq<Value>>, i: nat): Bytes
    decreases d, |d.fields| - i
  {
    if i >= |d.fields| || i >= |m| then [] else EncField(d.fields[i], m[i]) + EncMsg(d, m, i + 1)
  }

  // What may be encoded

  /** Tags differ and leave room for the wire type in 32 bits. */
  ghost predicate DescOk(d: Desc)
    decreases d
  {
    && (forall i :: 0 <= i < |d.fields| ==> 0 < d.fields[i].tag < 0x2000_0000)
    && (forall i, j :: 0 <= i < j < |d.fields| ==> d.fields[i].tag != d.fields[j].tag)
    && (forall i :: 0 <= i < |d.fields| && d.fields[i].typ.SubmessageT? ==> DescOk(d.fields[i].typ.desc))
  }

  /** The value is within its declared bounds, and lengths fit in 32 bits; strings hold no terminator. */
  ghost predicate Fits(t: Type, v: Value)
    decreases t, 0
  {
    if Packable(t) then v.Num? && NumFits(t, v.n)
    else if t.SubmessageT? then v.Msg? && MsgFits(t.desc, v.m) && |EncMsg(t.desc, v.m, 0)| < TWO32
    else if t.BytesT? then v.Blob? && |v.b| <= t.max && |v.b| < TWO32
    else v.Blob? && |v.b| < t.max && |v.b| + 1 < TWO32 && forall i :: 0 <= i < |v.b| ==> v.b[i] != 0
  }

  ghost predicate FieldFits(f: Field, vs: seq<Value>)
    decreases f, 0
  {
    && (f.rule.Required? ==> |vs| == 1) && (f.rule.Optional? ==> |vs| <= 1) && (f.rule.Repeated? ==> |vs| <= f.rule.max)
    && (forall j :: 0 <= j < |vs| ==> Fits(f.typ, vs[j]))
    && (f.rule.Repeated? && Packable(f.typ) ==> |EncPacked(f.typ, vs, 0)| < TWO32)
  }

  ghost predicate MsgFits(d: Desc, m: seq<seq<Value>>)
    decreases d, 0
  {
    |m| == |d.fields| && forall i :: 0 <= i < |d.fields| ==> FieldFits(d.fields[i], m[i])
  }

  // Decoding

  function Length(b: Bytes): (r: Read<Bytes>)
    ensures r.Taken? ==> |r.rest| < |b| && |r.value| < |b|
  {
    var n := Dec32(b);
    if n.None? || |b| - n.value.size < n.value.value then Bad
    else Taken(b[n.value.size..][..n.value.value], b[n.value.size..][n.value.value..])
  }

  /** A 64-bit number cut to the field's size; numbers of at most four bytes are first read as 32 bits. */
  function DecSigned(size: nat, u: u64): Option<int> {
    var s := if size == 8 then Signed(u) else Signed32(u);
    if -(Span(size) / 2) <= s < Span(size) / 2 then Some(s) else None
  }

  function DecNum(t: Type, b: Bytes): (r: Read<Value>)
    requires Packable(t)
    ensures r.Taken? ==> |r.rest| < |b|
  {
    match t
    case BoolT =>
      var u := Dec32(b);
      if u.None? then Bad else Taken(Num(if u.value.value == 0 then 0 else 1), b[u.value.size..])
    case VarintT(size) =>
      var u := Dec64(b);
      if u.None? || !SizeOk(size) || DecSigned(size, u.value.value).None? then Bad
      else Taken(Num(DecSigned(size, u.value.value).value), b[u.value.size..])
    case UVarintT(size) =>
      var u := Dec64(b);
      if u.None? || !SizeOk(size) || u.value.value >= Span(size) then Bad
      else Taken(Num(u.value.value), b[u.value.size..])
    case SVarintT(size) =>
      var u := Dec64(b);
      if u.None? || !SizeOk(size) || !(-(Span(size) / 2) <= UnZigZag(u.value.value) < Span(size) / 2) then Bad
      else Taken(Num(UnZigZag(u.value.value)), b[u.value.size..])
    case Fixed32T => if |b| < 4 then Bad else Taken(Num(DecodeFixed32(b[..4])), b[4..])
    case Fixed64T => if |b| < 8 then Bad else Taken(Num(DecodeFixed64(b[..8])), b[8..])
  }

  /** A message with nothing in it. */
  function Empty(d: Desc): (m: seq<seq<Value>>)
    ensures |m| == |d.fields| && forall i :: 0 <= i < |m| ==> m[i] == []
  {
    seq(|d.fields|, _ => [])
  }

  function Default(t: Type): Value {
    if t.SubmessageT? then Msg(Empty(t.desc)) else if Packable(t) then Num(0) else Blob([])
  }

  /** The position of the field with a tag; the number of fields if there is none. */
  function FindTag(d: Desc, tag: nat, i: nat): (k: nat)
    requires i <= |d.fields|
    ensures i <= k <= |d.fields| && (k < |d.fields| ==> d.fields[k].tag == tag)
    ensures forall j :: i <= j < k ==> d.fields[j].tag != tag
    decreases |d.fields| - i
  {
    if i == |d.fields| || d.fields[i].tag == tag then i else FindTag(d, tag, i + 1)
  }

  /** Skips a varint of any length. */
  function SkipVarint(b: Bytes): (r: Read<()>)
    ensures r.Taken? ==> |r.rest| < |b|
  {
    if b == [] then Bad else if b[0] < 128 then Taken((), b[1..]) else
    var r := SkipVarint(b[1..]);
    if r.Bad? then Bad else r
  }

  /** Skips a field that the message does not have. */
  function Skip(wire: nat, b: Bytes): (r: Read<()>)
    ensures r.Taken? ==> |r.rest| <= |b|
  {
    if wire == 0 then SkipVarint(b)
    else if wire == 1 then (if |b| < 8 then Bad else Taken((), b[8..]))
    else if wire == 2 then (var s := Length(b); if s.Bad? then Bad else Taken((), s.rest))
    else if wire == 5 then (if |b| < 4 then Bad else Taken((), b[4..]))
    else Bad
  }

  /** Passes over a field; a message without fields takes field number 0 for a boolean. */
  function Pass(d: Desc, tag: nat, wire: nat, b: Bytes): (r: Read<()>)
    ensures r.Taken? ==> |r.rest| <= |b|
  {
    if d.fields == [] && tag == 0 then
      var u := DecNum(BoolT, b);
      if u.Bad? then Bad else Taken((), u.rest)
    else Skip(wire, b)
  }

  /** Fields that are checked for presence: the first 64 required ones. */
  function RequiredBefore(d: Desc, i: nat): nat
    requires i <= |d.fields|
  {
    if i == 0 then 0 else RequiredBefore(d, i - 1) + if d.fields[i - 1].rule.Required? then 1 else 0
  }

  predicate AllSeen(d: Desc, seen: set<nat>) {
    forall i :: 0 <= i < |d.fields| && d.fields[i].rule.Required? && RequiredBefore(d, i) < 64 ==> i in seen
  }

  /** A value, decoded over what is there already if it is a message. */
  function DecValue(t: Type, b: Bytes, init: Value): (r: Read<Value>)
    ensures r.Taken? ==> |r.rest| < |b|
    decreases t, |b|, 0
  {
    if Packable(t) then DecNum(t, b)
    else
      var s := Length(b);
      if s.Bad? then Bad
      else if t.BytesT? then (if |s.value| > t.max then Bad else Taken(Blob(s.value), s.rest))
      else if t.StringT?
      then (if |s.value| + 1 >= TWO32 || |s.value| + 1 > t.max then Bad else Taken(Blob(s.value), s.rest))
      else
        var m := DecMsg(t.desc, s.value, if init.Msg? && |init.m| == |t.desc.fields| then init.m
                        else Empty(t.desc), {});
        if m.None? then Bad else Taken(Msg(m.value), s.rest)
  }

  /** The items of a packed array, until the bytes end. */
  function DecPacked(t: Type, b: Bytes, vs: seq<Value>, max: nat): Option<seq<Value>>
    requires Packable(t)
    decreases |b|
  {
    if b == [] then Some(vs)
    else if |vs| >= max then None
    else
      var v := DecNum(t, b);
      if v.Bad? then None else DecPacked(t, v.rest, vs + [v.value], max)
  }

  function DecField(f: Field, wire: nat, b: Bytes, vs: seq<Value>): (r: Read<seq<Value>>)
    ensures r.Taken? ==> |r.rest| < |b|
    decreases f, |b|, 0
  {
    if f.rule.Repeated? && wire == 2 && Packable(f.typ) then
      var s := Length(b);
      if s.Bad? then Bad else
      var all := DecPacked(f.typ, s.value, vs, f.rule.max);
      if all.None? then Bad else Taken(all.value, s.rest)
    else if f.rule.Repeated? then
      if |vs| >= f.rule.max then Bad else
      var v := DecValue(f.typ, b, Default(f.typ));
      if v.Bad? then Bad else Taken(vs + [v.value], v.rest)
    else
      var v := DecValue(f.typ, b, if vs != [] then vs[0] else Default(f.typ));
      if v.Bad? then Bad else Taken([v.value], v.rest)
  }

  /** Decodes fields until the bytes end or a zero tag; then every required field must have been seen. */
  function DecMsg(d: Desc, b: Bytes, m: seq<seq<Value>>, seen: set<nat>): Option<seq<seq<Value>>>
    requires |m| == |d.fields|
    decreases d, |b|, 0
  {
    if b == [] then (if AllSeen(d, seen) then Some(m) else None)
    else
      var t := Dec32(b);
      if t.None? then None
      else if t.value.value == 0 then (if AllSeen(d, seen) then Some(m) else None)
      else
        var rest, wire := b[t.value.size..], t.value.value % 8;
        var i := FindTag(d, t.value.value / 8, 0);
        if i == |d.fields| then
          var s := Pass(d, t.value.value / 8, wire, rest);
          if s.Bad? then None else DecMsg(d, s.rest, m, seen)
        else
          var vs := DecField(d.fields[i], wire, rest, m[i]);
          if vs.Bad? then None else DecMsg(d, vs.rest, m[i := vs.value], seen + {i})
  }

  // Round trips

  lemma LengthBack(s: Bytes, tail: Bytes)
    requires |s| < TWO32
    ensures Length(LengthPrefixed(s) + tail) == Taken(s, tail)
  {
    hide Varint, Dec32;
    Dec32Back(|s|, s + tail);
    Peel(Varint(|s|), s, tail);
    assert (s + tail)[..|s|] == s && (s + tail)[|s|..] == tail;
  }

  lemma Num64Back(u: u64, tail: Bytes)
    ensures Dec64(Varint(u) + tail) == Some(Parsed(u, |Varint(u)|)) && (Varint(u) + tail)[|Varint(u)|..] == tail
  {
    ReadVarint64RoundTrip(u, tail);
  }

  lemma FixedBack(n: int, tail: Bytes)
    ensures 0 <= n < TWO32 ==> (Fixed32(n) + tail)[..4] == Fixed32(n) && DecodeFixed32(Fixed32(n)) == n
    ensures 0 <= n < TWO32 ==> (Fixed32(n) + tail)[4..] == tail
    ensures 0 <= n < TWO64 ==> (Fixed64(n) + tail)[..8] == Fixed64(n) && DecodeFixed64(Fixed64(n)) == n
    ensures 0 <= n < TWO64 ==> (Fixed64(n) + tail)[8..] == tail
  {
    if 0 <= n < TWO32 {
      assert Fixed32(n) + [] == Fixed32(n);
      Fixed32RoundTrip(n, []);
    }
    if 0 <= n < TWO64 {
      assert Fixed64(n) + [] == Fixed64(n);
      Fixed64RoundTrip(n, []);
    }
  }

  lemma SignedBack(size: nat, n: int)
    requires SizeOk(size) && -(Span(size) / 2) <= n < Span(size) / 2
    ensures DecSigned(size, Unsigned(n)) == Some(n)
  {
    if size != 8 && n < 0 {
      assert (n + TWO64) % TWO32 == n + TWO32 by {
        LowOfLow(n + TWO64);
        assert n + TWO64 == (TWO32 - 1) * TWO32 + (n + TWO32);
      }
    }
  }

  /** Decoding undoes encoding for every number that fits its field. */
  lemma NumBack(t: Type, n: int, tail: Bytes)
    requires Packable(t) && NumFits(t, n)
    ensures DecNum(t, EncNum(t, n) + tail) == Taken(Num(n), tail)
  {
    hide Varint, Dec32, Dec64, Fixed32, Fixed64, DecodeFixed32, DecodeFixed64, ZigZag, UnZigZag, DecSigned, Unsigned;
    match t
    case BoolT =>
      Dec32Back(n, tail);
      assert (Varint(n) + tail)[|Varint(n)|..] == tail;
    case VarintT(size) =>
      SignedBack(size, n);
      Num64Back(Unsigned(n), tail);
    case UVarintT(_) => Num64Back(n, tail);
    case SVarintT(_) =>
      ZigZagBack(n);
      Num64Back(ZigZag(n), tail);
    case Fixed32T => FixedBack(n, tail);
    case Fixed64T => FixedBack(n, tail);
  }

  lemma NumNonEmpty(t: Type, n: int)
    requires Packable(t) && NumFits(t, n)
    ensures |EncNum(t, n)| > 0
  {
  }

  lemma {:induction false} PackedBack(t: Type, vs: seq<Value>, j: nat, max: nat)
    requires Packable(t) && j <= |vs| <= max && forall k :: 0 <= k < |vs| ==> Fits(t, vs[k])
    ensures DecPacked(t, EncPacked(t, vs, j), vs[..j], max) == Some(vs)
    decreases |vs| - j
  {
    if j == |vs| {
      assert vs[..j] == vs;
    } else {
      assert Fits(t, vs[j]);
      var n, rest := vs[j].n, EncPacked(t, vs, j + 1);
      NumBack(t, n, rest);
      NumNonEmpty(t, n);
      hide EncNum, DecNum, NumFits, Fits;
      assert vs[..j] + [vs[j]] == vs[..j + 1];
      PackedBack(t, vs, j + 1, max);
    }
  }

  lemma TagBack(d: Desc, i: nat, wire: nat, tail: Bytes)
    requires DescOk(d) && i < |d.fields| && wire < 8
    ensures var tag := d.fields[i].tag;
            var b := TagBytes(tag, wire);
            && Dec32(b + tail) == Some(Parsed(8 * tag + wire, |b|)) && (b + tail)[|b|..] == tail && |b| > 0
            && (8 * tag + wire) / 8 == tag && (8 * tag + wire) % 8 == wire && 8 * tag + wire != 0
            && FindTag(d, tag, 0) == i
  {
    var tag := d.fields[i].tag;
    hide Varint, Dec32;
    Dec32Back(8 * tag + wire, tail);
    assert (TagBytes(tag, wire) + tail)[|TagBytes(tag, wire)|..] == tail;
  }

  /** One field at the head of the bytes. */
  lemma HeadStep(d: Desc, i: nat, wire: nat, rest: Bytes, tail: Bytes, m: seq<seq<Value>>, seen: set<nat>,
                 vs: seq<Value>)
    requires DescOk(d) && i < |d.fields| == |m| && wire < 8
    requires DecField(d.fields[i], wire, rest, m[i]) == Taken(vs, tail)
    ensures DecMsg(d, TagBytes(d.fields[i].tag, wire) + rest, m, seen) == DecMsg(d, tail, m[i := vs], seen + {i})
  {
    TagBack(d, i, wire, rest);
    hide DecField, TagBytes, Dec32, DescOk, AllSeen;
    var b := TagBytes(d.fields[i].tag, wire) + rest;
    assert b != [] && b[Dec32(b).value.size..] == rest;
  }

  lemma {:induction false} ValueBack(t: Type, v: Value, tail: Bytes)
    requires Fits(t, v) && (t.SubmessageT? ==> DescOk(t.desc))
    ensures DecValue(t, EncValue(t, v) + tail, Default(t)) == Taken(v, tail)
    decreases t, 0, 0, 0
  {
    hide Length, LengthPrefixed, DecNum, EncNum;
    if Packable(t) {
      NumBack(t, v.n, tail);
    } else if t.SubmessageT? {
      LengthBack(EncMsg(t.desc, v.m, 0), tail);
      MsgBack(t.desc, v.m);
    } else {
      LengthBack(v.b, tail);
    }
  }

  /** A message whose first `i` fields have been decoded. */
  function Upto(m: seq<seq<Value>>, i: nat): (r: seq<seq<Value>>)
    requires i <= |m|
    ensures |r| == |m|
  {
    m[..i] + seq(|m| - i, _ => [])
  }

  lemma UptoNext(m: seq<seq<Value>>, i: nat)
    requires i < |m|
    ensures Upto(m, i)[i] == [] && Upto(m, i)[i := m[i]] == Upto(m, i + 1)
  {
  }

  /** The values of a field, one after another, end up in the message in order. */
  lemma {:induction false} EachBack(d: Desc, i: nat, vs: seq<Value>, j: nat, tail: Bytes, m: seq<seq<Value>>,
                                    seen: set<nat>)
    requires DescOk(d) && i < |d.fields| == |m| && FieldFits(d.fields[i], vs) && j <= |vs| && m[i] == vs[..j]
    requires !(d.fields[i].rule.Repeated? && Packable(d.fields[i].typ))
    ensures DecMsg(d, EncEach(d.fields[i], vs, j) + tail, m, seen)
         == DecMsg(d, tail, m[i := vs], if j < |vs| then seen + {i} else seen)
    decreases d, |d.fields| - i, 0, |vs| - j
  {
    hide DecMsg, EncValue, DecValue, DescOk, FieldFits, Fits, TagBytes, DecField;
    var f := d.fields[i];
    if j == |vs| {
      assert [] + tail == tail && vs[..j] == vs && m[i := vs] == m;
    } else {
      var rest := EncEach(f, vs, j + 1) + tail;
      PartsOk(d, i, vs, j);
      ValueBack(f.typ, vs[j], rest);
      FieldStep(f, vs, j, EncValue(f.typ, vs[j]) + rest, rest);
      HeadStep(d, i, Wire(f.typ), EncValue(f.typ, vs[j]) + rest, rest, m, seen, vs[..j + 1]);
      EachBack(d, i, vs, j + 1, tail, m[i := vs[..j + 1]], seen + {i});
      Reassociate(TagBytes(f.tag, Wire(f.typ)), EncValue(f.typ, vs[j]), EncEach(f, vs, j + 1), tail);
      assert m[i := vs[..j + 1]][i := vs] == m[i := vs];
      assert seen + {i} + {i} == seen + {i};
    }
  }

  lemma PartsOk(d: Desc, i: nat, vs: seq<Value>, j: nat)
    requires DescOk(d) && i < |d.fields| && FieldFits(d.fields[i], vs) && j < |vs|
    ensures Fits(d.fields[i].typ, vs[j]) && (d.fields[i].typ.SubmessageT? ==> DescOk(d.fields[i].typ.desc))
  {
  }

  lemma Reassociate(a: Bytes, b: Bytes, c: Bytes, tail: Bytes)
    ensures (a + b + c) + tail == a + (b + (c + tail))
  {
  }

  lemma FieldStep(f: Field, vs: seq<Value>, j: nat, b: Bytes, rest: Bytes)
    requires FieldFits(f, vs) && j < |vs| && !(f.rule.Repeated? && Packable(f.typ))
    requires DecValue(f.typ, b, Default(f.typ)) == Taken(vs[j], rest)
    ensures DecField(f, Wire(f.typ), b, vs[..j]) == Taken(vs[..j + 1], rest)
  {
    hide DecValue, Default, Fits;
    assert vs[..j] + [vs[j]] == vs[..j + 1];
    assert !f.rule.Repeated? ==> j == 0 && vs[..j] == [] && [vs[j]] == vs[..j + 1];
    assert f.rule.Repeated? ==> |vs[..j]| < f.rule.max;
  }

  lemma PackedFieldBack(d: Desc, i: nat, vs: seq<Value>, tail: Bytes, m: seq<seq<Value>>, seen: set<nat>)
    requires DescOk(d) && i < |d.fields| == |m| && FieldFits(d.fields[i], vs) && vs != [] && m[i] == []
    requires d.fields[i].rule.Repeated? && Packable(d.fields[i].typ)
    ensures DecMsg(d, EncField(d.fields[i], vs) + tail, m, seen) == DecMsg(d, tail, m[i := vs], seen + {i})
  {
    var f := d.fields[i];
    var items := EncPacked(f.typ, vs, 0);
    LengthBack(items, tail);
    assert vs[..0] == [];
    PackedBack(f.typ, vs, 0, f.rule.max);
    hide Length, LengthPrefixed, DecPacked, EncPacked, DecMsg, TagBytes, DescOk;
    assert DecField(f, 2, LengthPrefixed(items) + tail, []) == Taken(vs, tail);
    HeadStep(d, i, 2, LengthPrefixed(items) + tail, tail, m, seen, vs);
    Peel(TagBytes(f.tag, 2), LengthPrefixed(items), tail);
  }

  lemma {:induction false} FieldsBack(d: Desc, m: seq<seq<Value>>, i: nat, seen: set<nat>)
    requires DescOk(d) && MsgFits(d, m) && i <= |d.fields|
    requires forall j :: 0 <= j < i && d.fields[j].rule.Required? ==> j in seen
    ensures DecMsg(d, EncMsg(d, m, i), Upto(m, i), seen) == Some(m)
    decreases d, |d.fields| - i, 1, 0
  {
    if i == |d.fields| {
      assert Upto(m, i) == m;
    } else {
      var f, vs, tail := d.fields[i], m[i], EncMsg(d, m, i + 1);
      assert FieldFits(f, vs);
      UptoNext(m, i);
      if f.rule.Repeated? && Packable(f.typ) {
        if vs == [] {
          assert Upto(m, i)[i := vs] == Upto(m, i) && [] + tail == tail;
          FieldsBack(d, m, i + 1, seen);
        } else {
          PackedFieldBack(d, i, vs, tail, Upto(m, i), seen);
          FieldsBack(d, m, i + 1, seen + {i});
        }
      } else {
        EachBack(d, i, vs, 0, tail, Upto(m, i), seen);
        FieldsBack(d, m, i + 1, if vs == [] then seen else seen + {i});
      }
    }
  }

  /** Decoding an encoded message into an empty one gives back the message. */
  lemma {:induction false} MsgBack(d: Desc, m: seq<seq<Value>>)
    requires DescOk(d) && MsgFits(d, m)
    ensures DecMsg(d, EncMsg(d, m, 0), Empty(d), {}) == Some(m)
    decreases d, |d.fields| + 1, 0, 0
  {
    assert Upto(m, 0) == Empty(d);
    FieldsBack(d, m, 0, {});
  }

  // Fields that the receiver does not know

  lemma {:induction false} SkipVarintBack(u: nat, tail: Bytes)
    ensures SkipVarint(Varint(u) + tail) == Taken((), tail)
    decreases u
  {
    VarintCons(u, tail);
    if u >= 128 {
      SkipVarintBack(u / 128, tail);
    } else {
      assert (Varint(u) + tail)[1..] == tail;
    }
  }

  /** The wire type tells how to pass over any value. */
  lemma SkipBack(t: Type, v: Value, tail: Bytes)
    requires Fits(t, v)
    ensures Skip(Wire(t), EncValue(t, v) + tail) == Taken((), tail)
  {
    hide SkipVarint, Varint, Length, LengthPrefixed, Fixed32, Fixed64, EncMsg, ZigZag, Unsigned;
    match t
    case BoolT => SkipVarintBack(v.n, tail);
    case VarintT(_) => SkipVarintBack(Unsigned(v.n), tail);
    case UVarintT(_) => SkipVarintBack(v.n, tail);
    case SVarintT(_) => SkipVarintBack(ZigZag(v.n), tail);
    case Fixed32T => assert (Fixed32(v.n) + tail)[4..] == tail;
    case Fixed64T => assert (Fixed64(v.n) + tail)[8..] == tail;
    case BytesT(_) => LengthBack(v.b, tail);
    case StringT(_) => LengthBack(v.b, tail);
    case SubmessageT(d) => LengthBack(EncMsg(d, v.m, 0), tail);
  }

  lemma SkipStep(d: Desc, tag: nat, wire: nat, rest: Bytes, tail: Bytes, m: seq<seq<Value>>, seen: set<nat>)
    requires 0 < tag < 0x2000_0000 && wire < 8 && |m| == |d.fields| && FindTag(d, tag, 0) == |d.fields|
    requires Skip(wire, rest) == Taken((), tail)
    ensures DecMsg(d, TagBytes(tag, wire) + rest, m, seen) == DecMsg(d, tail, m, seen)
  {
    hide Varint, Dec32, Skip, AllSeen;
    Dec32Back(8 * tag + wire, rest);
    assert (TagBytes(tag, wire) + rest)[|TagBytes(tag, wire)|..] == rest;
    assert (8 * tag + wire) / 8 == tag && (8 * tag + wire) % 8 == wire;
  }

  lemma {:induction false} UnknownEach(d: Desc, f: Field, vs: seq<Value>, j: nat, tail: Bytes, m: seq<seq<Value>>,
                                       seen: set<nat>)
    requires 0 < f.tag < 0x2000_0000 && |m| == |d.fields| && FindTag(d, f.tag, 0) == |d.fields|
    requires j <= |vs| && forall k :: 0 <= k < |vs| ==> Fits(f.typ, vs[k])
    ensures DecMsg(d, EncEach(f, vs, j) + tail, m, seen) == DecMsg(d, tail, m, seen)
    decreases |vs| - j
  {
    hide DecMsg, EncValue, TagBytes, Skip;
    if j == |vs| {
      assert [] + tail == tail;
    } else {
      var rest := EncEach(f, vs, j + 1) + tail;
      assert Fits(f.typ, vs[j]);
      hide Fits;
      SkipBack(f.typ, vs[j], rest);
      SkipStep(d, f.tag, Wire(f.typ), EncValue(f.typ, vs[j]) + rest, rest, m, seen);
      Reassociate(TagBytes(f.tag, Wire(f.typ)), EncValue(f.typ, vs[j]), EncEach(f, vs, j + 1), tail);
      UnknownEach(d, f, vs, j + 1, tail, m, seen);
    }
  }

  /** A field that the receiver's description does not have, of any type, packed or not, changes nothing. */
  lemma UnknownFieldSkipped(d: Desc, f: Field, vs: seq<Value>, tail: Bytes, m: seq<seq<Value>>, seen: set<nat>)
    requires 0 < f.tag < 0x2000_0000 && FieldFits(f, vs) && |m| == |d.fields|
    requires forall i :: 0 <= i < |d.fields| ==> d.fields[i].tag != f.tag
    ensures DecMsg(d, EncField(f, vs) + tail, m, seen) == DecMsg(d, tail, m, seen)
  {
    hide DecMsg, TagBytes, LengthPrefixed, Length, EncPacked, Fits;
    if f.rule.Repeated? && Packable(f.typ) {
      if vs == [] {
        assert [] + tail == tail;
      } else {
        var items := EncPacked(f.typ, vs, 0);
        LengthBack(items, tail);
        SkipStep(d, f.tag, 2, LengthPrefixed(items) + tail, tail, m, seen);
        Peel(TagBytes(f.tag, 2), LengthPrefixed(items), tail);
      }
    } else {
      UnknownEach(d, f, vs, 0, tail, m, seen);
    }
  }

  // The decoder's loops

  method DecodePacked(t: Type, b: Bytes, vs: seq<Value>, max: nat) returns (r: Option<seq<Value>>)
    requires Packable(t)
    ensures r == DecPacked(t, b, vs, max)
  {
    hide DecNum;
    var left, all := b, vs;
    while left != [] && |all| < max
      invariant DecPacked(t, left, all, max) == DecPacked(t, b, vs, max)
      decreases |left|
    {
      var v := DecNum(t, left);
      if v.Bad? {
        return None;
      }
      left, all := v.rest, all + [v.value];
    }
    if left != [] {
      return None;
    }
    return Some(all);
  }

  method DecodeMsg(d: Desc, b: Bytes, init: seq<seq<Value>>) returns (r: Option<seq<seq<Value>>>)
    requires |init| == |d.fields|
    ensures r == DecMsg(d, b, init, {})
  {
    hide DecField, Dec32, Pass, AllSeen;
    var left, m: seq<seq<Value>>, seen: set<nat> := b, init, {};
    while left != []
      invariant |m| == |d.fields| && DecMsg(d, left, m, seen) == DecMsg(d, b, init, {})
      decreases |left|
    {
      var t := Dec32(left);
      if t.None? {
        return None;
      }
      if t.value.value == 0 {
        break;
      }
      var rest, wire := left[t.value.size..], t.value.value % 8;
      var i := FindTag(d, t.value.value / 8, 0);
      if i == |d.fields| {
        var s := Pass(d, t.value.value / 8, wire, rest);
        if s.Bad? {
          return None;
        }
        left := s.rest;
      } else {
        var vs := DecField(d.fields[i], wire, rest, m[i]);
        if vs.Bad? {
          return None;
        }
        seen := seen + {i};
        m := m[i := vs.value];
        left := vs.rest;
      }
    }
    if !AllSeen(d, seen) {
      return None;
    }
    return Some(m);
  }
}
