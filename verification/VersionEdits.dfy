/**
 Version edits: the changes to the set of files that the manifest records, and their encoding.
 */
module VersionEdits {
  import opened Keys
  import opened Coding

  const LEVELS: nat := 7

  /** A table file; its bounds are encoded internal keys. */
  datatype FileMeta = FileMeta(number: u64, size: u64, smallest: Bytes, largest: Bytes)

  datatype Edit = Edit(
    comparator: Option<Bytes>,
    logNumber: Option<u64>,
    prevLogNumber: Option<u64>,
    nextFileNumber: Option<u64>,
    lastSequence: Option<u64>,
    compactPointers: seq<(nat, Bytes)>,
    deleted: set<(nat, u64)>,
    added: seq<(nat, FileMeta)>)

  const EMPTY: Edit := Edit(None, None, None, None, None, [], {}, [])

  /** What an edit may hold: levels that exist and lengths that fit in 32 bits. */
  ghost predicate Encodable(e: Edit) {
    && (e.comparator.Some? ==> |e.comparator.value| < TWO32)
    && (forall p :: p in e.compactPointers ==> p.0 < LEVELS && |p.1| < TWO32)
    && (forall p :: p in e.deleted ==> p.0 < LEVELS)
    && (forall p :: p in e.added ==> p.0 < LEVELS && |p.1.smallest| < TWO32 && |p.1.largest| < TWO32)
  }

  /** One tagged field. */
  datatype Field =
    | Comparator(name: Bytes)
    | LogNumber(number: u64)
    | PrevLogNumber(number: u64)
    | NextFileNumber(number: u64)
    | LastSequence(number: u64)
    | CompactPointer(level: nat, key: Bytes)
    | DeletedFile(level: nat, number: u64)
    | NewFile(level: nat, file: FileMeta)

  ghost predicate FieldOk(f: Field) {
    match f
    case Comparator(name) => |name| < TWO32
    case CompactPointer(level, key) => level < LEVELS && |key| < TWO32
    case DeletedFile(level, number) => level < LEVELS
    case NewFile(level, file) => level < LEVELS && |file.smallest| < TWO32 && |file.largest| < TWO32
    case _ => true
  }

  function EncodeField(f: Field): (b: Bytes)
    ensures |b| > 0
  {
    match f
    case Comparator(name) => Varint(1) + LengthPrefixed(name)
    case LogNumber(number) => Varint(2) + Varint(number)
    case NextFileNumber(number) => Varint(3) + Varint(number)
    case LastSequence(number) => Varint(4) + Varint(number)
    case CompactPointer(level, key) => Varint(5) + (Varint(level) + LengthPrefixed(key))
    case DeletedFile(level, number) => Varint(6) + (Varint(level) + Varint(number))
    case NewFile(level, file) =>
      var keys := LengthPrefixed(file.smallest) + LengthPrefixed(file.largest);
      Varint(7) + (Varint(level) + (Varint(file.number) + (Varint(file.size) + keys)))
    case PrevLogNumber(number) => Varint(9) + Varint(number)
  }

  function GetLevel(b: Bytes): (r: Read<nat>)
    ensures r.Taken? ==> |r.rest| < |b|
  {
    var v := Get32(b);
    if v.Taken? && v.value < LEVELS then Taken(v.value, v.rest) else Bad
  }

  function GetNewFile(b: Bytes): (r: Read<Field>)
    ensures r.Taken? ==> |r.rest| < |b|
  {
    var level := GetLevel(b);
    if level.Bad? then Bad else
    var number := Get64(level.rest);
    if number.Bad? then Bad else
    var size := Get64(number.rest);
    if size.Bad? then Bad else
    var smallest := GetSlice(size.rest);
    if smallest.Bad? then Bad else
    var largest := GetSlice(smallest.rest);
    if largest.Bad? then Bad
    else Taken(NewFile(level.value, FileMeta(number.value, size.value, smallest.value, largest.value)), largest.rest)
  }

  function GetNumber(b: Bytes, field: u64 -> Field): (r: Read<Field>)
    ensures r.Taken? ==> |r.rest| < |b|
  {
    var v := Get64(b);
    if v.Bad? then Bad else Taken(field(v.value), v.rest)
  }

  function GetComparator(b: Bytes): (r: Read<Field>)
    ensures r.Taken? ==> |r.rest| < |b|
  {
    var s := GetSlice(b);
    if s.Bad? then Bad else Taken(Comparator(s.value), s.rest)
  }

  function GetCompactPointer(b: Bytes): (r: Read<Field>)
    ensures r.Taken? ==> |r.rest| < |b|
  {
    var level := GetLevel(b);
    if level.Bad? then Bad else
    var key := GetSlice(level.rest);
    if key.Bad? then Bad else Taken(CompactPointer(level.value, key.value), key.rest)
  }

  function GetDeletedFile(b: Bytes): (r: Read<Field>)
    ensures r.Taken? ==> |r.rest| < |b|
  {
    var level := GetLevel(b);
    if level.Bad? then Bad else
    var number := Get64(level.rest);
    if number.Bad? then Bad else Taken(DeletedFile(level.value, number.value), number.rest)
  }

  /** The field after its tag. */
  function GetField(tag: nat, b: Bytes): (r: Read<Field>)
    ensures r.Taken? ==> |r.rest| < |b|
  {
    if tag == 1 then GetComparator(b)
    else if tag == 2 then GetNumber(b, (n: u64) => LogNumber(n))
    else if tag == 3 then GetNumber(b, (n: u64) => NextFileNumber(n))
    else if tag == 4 then GetNumber(b, (n: u64) => LastSequence(n))
    else if tag == 5 then GetCompactPointer(b)
    else if tag == 6 then GetDeletedFile(b)
    else if tag == 7 then GetNewFile(b)
    else if tag == 9 then GetNumber(b, (n: u64) => PrevLogNumber(n))
    else Bad
  }

  /** Puts a decoded field into an edit. */
  function SetField(e: Edit, f: Field): Edit {
    match f
    case Comparator(name) => e.(comparator := Some(name))
    case LogNumber(number) => e.(logNumber := Some(number))
    case PrevLogNumber(number) => e.(prevLogNumber := Some(number))
    case NextFileNumber(number) => e.(nextFileNumber := Some(number))
    case LastSequence(number) => e.(lastSequence := Some(number))
    case CompactPointer(level, key) => e.(compactPointers := e.compactPointers + [(level, key)])
    case DeletedFile(level, number) => e.(deleted := e.deleted + {(level, number)})
    case NewFile(level, file) => e.(added := e.added + [(level, file)])
  }

  // Round trips of the parts

  lemma LevelBack(level: nat, tail: Bytes)
    requires level < LEVELS
    ensures GetLevel(Varint(level) + tail) == Taken(level, tail)
  {
    hide Varint, Get32;
    Back32(level, tail);
  }

  lemma NewFileBack(level: nat, f: FileMeta, tail: Bytes)
    requires FieldOk(NewFile(level, f))
    ensures var keys := LengthPrefixed(f.smallest) + (LengthPrefixed(f.largest) + tail);
            GetNewFile(Varint(level) + (Varint(f.number) + (Varint(f.size) + keys)))
            == Taken(NewFile(level, f), tail)
  {
    hide Varint, Get64, GetLevel, GetSlice, LengthPrefixed;
    var t4 := LengthPrefixed(f.largest) + tail;
    var t3 := LengthPrefixed(f.smallest) + t4;
    var t2 := Varint(f.size) + t3;
    var t1 := Varint(f.number) + t2;
    LevelBack(level, t1);
    Back64(f.number, t2);
    Back64(f.size, t3);
    SliceBack(f.smallest, t4);
    SliceBack(f.largest, tail);
  }

  function TagOf(f: Field): nat {
    match f
    case Comparator(_) => 1
    case LogNumber(_) => 2
    case NextFileNumber(_) => 3
    case LastSequence(_) => 4
    case CompactPointer(_, _) => 5
    case DeletedFile(_, _) => 6
    case NewFile(_, _) => 7
    case PrevLogNumber(_) => 9
  }

  /** What follows the tag. */
  function Body(f: Field): Bytes {
    match f
    case Comparator(name) => LengthPrefixed(name)
    case CompactPointer(level, key) => Varint(level) + LengthPrefixed(key)
    case DeletedFile(level, number) => Varint(level) + Varint(number)
    case NewFile(level, file) =>
      var keys := LengthPrefixed(file.smallest) + LengthPrefixed(file.largest);
      Varint(level) + (Varint(file.number) + (Varint(file.size) + keys))
    case _ => Varint(f.number)
  }

  lemma EncodeFieldParts(f: Field)
    ensures EncodeField(f) == Varint(TagOf(f)) + Body(f)
  {
    hide Varint, LengthPrefixed;
  }

  lemma BodyBack(f: Field, tail: Bytes)
    requires FieldOk(f)
    ensures GetField(TagOf(f), Body(f) + tail) == Taken(f, tail)
  {
    hide Varint, Get64, GetLevel, GetSlice, LengthPrefixed, GetNewFile;
    match f
    case Comparator(name) => SliceBack(name, tail);
    case CompactPointer(level, key) =>
      Peel(Varint(level), LengthPrefixed(key), tail);
      LevelBack(level, LengthPrefixed(key) + tail);
      SliceBack(key, tail);
    case DeletedFile(level, number) =>
      Peel(Varint(level), Varint(number), tail);
      LevelBack(level, Varint(number) + tail);
      Back64(number, tail);
    case NewFile(level, file) =>
      PeelFile(Varint(level), Varint(file.number), Varint(file.size), LengthPrefixed(file.smallest),
               LengthPrefixed(file.largest), tail);
      NewFileBack(level, file, tail);
    case LogNumber(number) => Back64(number, tail);
    case NextFileNumber(number) => Back64(number, tail);
    case LastSequence(number) => Back64(number, tail);
    case PrevLogNumber(number) => Back64(number, tail);
  }

  lemma PeelFile(a: Bytes, b: Bytes, c: Bytes, d: Bytes, e: Bytes, tail: Bytes)
    ensures (a + (b + (c + (d + e)))) + tail == a + (b + (c + (d + (e + tail))))
  {
    Peel(d, e, tail);
    Peel(c, d + e, tail);
    Peel(b, c + (d + e), tail);
    Peel(a, b + (c + (d + e)), tail);
  }

  // Whole edits

  function Encode(fs: seq<Field>): Bytes {
    if fs == [] then [] else EncodeField(fs[0]) + Encode(fs[1..])
  }

  function SetAll(e: Edit, fs: seq<Field>): Edit
    decreases |fs|
  {
    if fs == [] then e else SetAll(SetField(e, fs[0]), fs[1..])
  }

  datatype Decoded = Decoded(ok: bool, edit: Edit)

  /** Decodes fields into `e` until the input ends or something is wrong. */
  function Decode(b: Bytes, e: Edit): Decoded
    decreases |b|
  {
    var tag := Get32(b);
    if tag.Bad? then Decoded(b == [], e)
    else
      var f := GetField(tag.value, tag.rest);
      if f.Bad? then Decoded(false, e) else Decode(f.rest, SetField(e, f.value))
  }

  lemma {:induction false} DecodeFields(fs: seq<Field>, e: Edit)
    requires forall f :: f in fs ==> FieldOk(f)
    ensures Decode(Encode(fs), e) == Decoded(true, SetAll(e, fs))
    decreases |fs|
  {
    if fs == [] {
      NothingToGet();
    } else {
      var f, tail := fs[0], Encode(fs[1..]);
      EncodeFieldParts(f);
      Peel(Varint(TagOf(f)), Body(f), tail);
      Back32(TagOf(f), Body(f) + tail);
      BodyBack(f, tail);
      DecodeFields(fs[1..], SetField(e, f));
      hide Varint, GetField, Get32, SetField, Body, FieldOk;
      assert Encode(fs) == Varint(TagOf(f)) + (Body(f) + tail);
    }
  }

  lemma NothingToGet()
    ensures Get32([]).Bad?
  {
  }

  /** The fields of an edit in the order they are written; `order` lists the deleted files. */
  function Fields(e: Edit, order: seq<(nat, u64)>): seq<Field> {
    Scalars(e) + Pointers(e.compactPointers) + Deletions(order) + Additions(e.added)
  }

  function Pointers(ps: seq<(nat, Bytes)>): seq<Field> {
    seq(|ps|, i requires 0 <= i < |ps| => CompactPointer(ps[i].0, ps[i].1))
  }

  function Deletions(ps: seq<(nat, u64)>): seq<Field> {
    seq(|ps|, i requires 0 <= i < |ps| => DeletedFile(ps[i].0, ps[i].1))
  }

  function Additions(ps: seq<(nat, FileMeta)>): seq<Field> {
    seq(|ps|, i requires 0 <= i < |ps| => NewFile(ps[i].0, ps[i].1))
  }

  lemma {:induction false} SetAllAppend(e: Edit, a: seq<Field>, b: seq<Field>)
    ensures SetAll(e, a + b) == SetAll(SetAll(e, a), b)
    decreases |a|
  {
    hide SetField;
    if a == [] {
      assert a + b == b;
    } else {
      assert (a + b)[1..] == a[1..] + b;
      SetAllAppend(SetField(e, a[0]), a[1..], b);
    }
  }

  lemma {:induction false} SetPointers(e: Edit, ps: seq<(nat, Bytes)>)
    ensures SetAll(e, Pointers(ps)) == e.(compactPointers := e.compactPointers + ps)
    decreases |ps|
  {
    if ps != [] {
      assert Pointers(ps)[1..] == Pointers(ps[1..]);
      var e' := SetField(e, CompactPointer(ps[0].0, ps[0].1));
      SetPointers(e', ps[1..]);
      assert e'.compactPointers + ps[1..] == e.compactPointers + ps;
    }
  }

  lemma {:induction false} SetDeletions(e: Edit, ps: seq<(nat, u64)>)
    ensures SetAll(e, Deletions(ps)) == e.(deleted := e.deleted + set p | p in ps)
    decreases |ps|
  {
    if ps != [] {
      assert Deletions(ps)[1..] == Deletions(ps[1..]);
      var e' := SetField(e, DeletedFile(ps[0].0, ps[0].1));
      SetDeletions(e', ps[1..]);
      assert ps == [ps[0]] + ps[1..];
      assert e'.deleted + (set p | p in ps[1..]) == e.deleted + set p | p in ps;
    }
  }

  lemma {:induction false} SetAdditions(e: Edit, ps: seq<(nat, FileMeta)>)
    ensures SetAll(e, Additions(ps)) == e.(added := e.added + ps)
    decreases |ps|
  {
    if ps != [] {
      assert Additions(ps)[1..] == Additions(ps[1..]);
      var e' := SetField(e, NewFile(ps[0].0, ps[0].1));
      SetAdditions(e', ps[1..]);
      assert e'.added + ps[1..] == e.added + ps;
    }
  }

  /** `Clear` resets every field but the compaction pointers. */
  function Cleared(e: Edit): Edit {
    EMPTY.(compactPointers := e.compactPointers)
  }

  /** The five single-valued fields, each written only if present. */
  function Scalars(e: Edit): seq<Field> {
    (if e.comparator.Some? then [Comparator(e.comparator.value)] else []) +
    (if e.logNumber.Some? then [LogNumber(e.logNumber.value)] else []) +
    (if e.prevLogNumber.Some? then [PrevLogNumber(e.prevLogNumber.value)] else []) +
    (if e.nextFileNumber.Some? then [NextFileNumber(e.nextFileNumber.value)] else []) +
    (if e.lastSequence.Some? then [LastSequence(e.lastSequence.value)] else [])
  }

  lemma SetOne(e: Edit, f: Field)
    ensures SetAll(e, [f]) == SetField(e, f) && SetAll(e, []) == e
  {
    assert [f][1..] == [];
    assert SetAll(SetField(e, f), []) == SetField(e, f);
  }

  lemma SetOptional(e: Edit, fs: seq<Field>, f: Field, present: bool)
    ensures SetAll(e, fs + if present then [f] else []) == if present then SetField(SetAll(e, fs), f) else SetAll(e, fs)
  {
    hide SetField;
    SetAllAppend(e, fs, if present then [f] else []);
    SetOne(SetAll(e, fs), f);
  }

  lemma SetScalars(e: Edit, u: Edit)
    ensures SetAll(Cleared(u), Scalars(e)) == e.(compactPointers := u.compactPointers, deleted := {}, added := [])
  {
    var z := Cleared(u);
    var n := (o: Option<u64>) => if o.Some? then o.value else 0;
    var c := Comparator(if e.comparator.Some? then e.comparator.value else []);
    var f1 := if e.comparator.Some? then [c] else [];
    var f2 := f1 + if e.logNumber.Some? then [LogNumber(e.logNumber.value)] else [];
    var f3 := f2 + if e.prevLogNumber.Some? then [PrevLogNumber(e.prevLogNumber.value)] else [];
    var f4 := f3 + if e.nextFileNumber.Some? then [NextFileNumber(e.nextFileNumber.value)] else [];
    hide SetAll;
    SetOne(z, c);
    SetOptional(z, f1, LogNumber(n(e.logNumber)), e.logNumber.Some?);
    SetOptional(z, f2, PrevLogNumber(n(e.prevLogNumber)), e.prevLogNumber.Some?);
    SetOptional(z, f3, NextFileNumber(n(e.nextFileNumber)), e.nextFileNumber.Some?);
    SetOptional(z, f4, LastSequence(n(e.lastSequence)), e.lastSequence.Some?);
  }

  /** The pairs of `order` are exactly the deleted files. */
  ghost predicate Lists(order: seq<(nat, u64)>, deleted: set<(nat, u64)>) {
    deleted == set p | p in order
  }

  /**
   Decoding an encoded edit gives back the edit, behind whatever compaction pointers the
   receiving object already held; into a fresh object it is the identity.
   */
  lemma EditRoundTrip(e: Edit, order: seq<(nat, u64)>, used: Edit)
    requires Encodable(e) && Lists(order, e.deleted)
    ensures Decode(Encode(Fields(e, order)), Cleared(used))
         == Decoded(true, e.(compactPointers := used.compactPointers + e.compactPointers))
    ensures Decode(Encode(Fields(e, order)), Cleared(used)).edit == e <==> used.compactPointers == []
  {
    hide Encode, Decode, SetAll, SetField, Cleared;
    var z := Cleared(used);
    FieldsOk(e, order);
    DecodeFields(Fields(e, order), z);
    SetScalars(e, used);
    SetAllAppend(z, Scalars(e), Pointers(e.compactPointers));
    var e1 := SetAll(z, Scalars(e));
    SetPointers(e1, e.compactPointers);
    SetAllAppend(z, Scalars(e) + Pointers(e.compactPointers), Deletions(order));
    var e2 := SetAll(e1, Pointers(e.compactPointers));
    SetDeletions(e2, order);
    SetAllAppend(z, Scalars(e) + Pointers(e.compactPointers) + Deletions(order), Additions(e.added));
    var e3 := SetAll(e2, Deletions(order));
    SetAdditions(e3, e.added);
    assert |used.compactPointers + e.compactPointers| == |e.compactPointers| ==> used.compactPointers == [];
    assert used.compactPointers == [] ==> used.compactPointers + e.compactPointers == e.compactPointers;
    assert [] + e.added == e.added;
  }

  lemma FieldsOk(e: Edit, order: seq<(nat, u64)>)
    requires Encodable(e) && Lists(order, e.deleted)
    ensures forall f :: f in Fields(e, order) ==> FieldOk(f)
  {
    forall i | 0 <= i < |order|
      ensures order[i].0 < LEVELS
    {
      assert order[i] in e.deleted;
    }
  }

  class VersionEdit {
    var edit: Edit

    constructor ()
      ensures edit == EMPTY
    {
      edit := EMPTY;
    }

    method Clear()
      modifies this
      ensures edit == Cleared(old(edit))
    {
      edit := edit.(comparator := None, logNumber := None, prevLogNumber := None, nextFileNumber := None,
      lastSequence := None, deleted := {}, added := []);
    }

    /** Appends the encoding; `order` is the order in which the set of deleted files is walked. */
    method EncodeTo(dst: Bytes, order: seq<(nat, u64)>) returns (out: Bytes)
      ensures out == dst + Encode(Fields(edit, order))
    {
      hide Encode, Scalars, Pointers, Deletions, Additions;
      ghost var fs := Scalars(edit);
      out := PutScalars(dst, edit);
      out := PutPointers(dst, fs, out, edit.compactPointers);
      fs := fs + Pointers(edit.compactPointers);
      out := PutDeletions(dst, fs, out, order);
      fs := fs + Deletions(order);
      out := PutAdditions(dst, fs, out, edit.added);
    }

    method DecodeFrom(src: Bytes) returns (ok: bool)
      modifies this
      ensures Decoded(ok, edit) == Decode(src, Cleared(old(edit)))
    {
      hide GetField, SetField, Get32;
      Clear();
      var input := src;
      while true
        invariant Decode(input, edit) == Decode(src, Cleared(old(edit)))
        decreases |input|
      {
        var tag := Get32(input);
        if tag.Bad? {
          return input == [];
        }
        var f := GetField(tag.value, tag.rest);
        if f.Bad? {
          return false;
        }
        edit := SetField(edit, f.value);
        input := f.rest;
      }
    }
  }

  lemma EncodeNone()
    ensures Encode([]) == []
  {
  }

  lemma {:induction false} EncodeSnoc(fs: seq<Field>, f: Field)
    ensures Encode(fs + [f]) == Encode(fs) + EncodeField(f)
    decreases |fs|
  {
    hide EncodeField;
    if fs == [] {
      assert fs + [f] == [f] && [f][1..] == [];
      assert EncodeField(f) + [] == EncodeField(f);
    } else {
      assert (fs + [f])[1..] == fs[1..] + [f];
      EncodeSnoc(fs[1..], f);
    }
  }

  method Put(ghost dst: Bytes, ghost fs: seq<Field>, out: Bytes, f: Field) returns (out': Bytes)
    requires out == dst + Encode(fs)
    ensures out' == dst + Encode(fs + [f])
  {
    hide EncodeField;
    EncodeSnoc(fs, f);
    out' := out + EncodeField(f);
  }

  method PutScalars(dst: Bytes, e: Edit) returns (out: Bytes)
    ensures out == dst + Encode(Scalars(e))
  {
    hide Encode;
    ghost var fs: seq<Field> := [];
    out := dst;
    EncodeNone();
    if e.comparator.Some? {
      out := Put(dst, fs, out, Comparator(e.comparator.value));
    }
    fs := if e.comparator.Some? then [Comparator(e.comparator.value)] else [];
    assert out == dst + Encode(fs) by {
      assert e.comparator.Some? ==> [] + [Comparator(e.comparator.value)] == fs;
    }
    if e.logNumber.Some? {
      out := Put(dst, fs, out, LogNumber(e.logNumber.value));
    }
    assert out == dst + Encode(fs + if e.logNumber.Some? then [LogNumber(e.logNumber.value)] else []) by {
      assert fs + [] == fs;
    }
    fs := fs + if e.logNumber.Some? then [LogNumber(e.logNumber.value)] else [];
    if e.prevLogNumber.Some? {
      out := Put(dst, fs, out, PrevLogNumber(e.prevLogNumber.value));
    }
    assert out == dst + Encode(fs + if e.prevLogNumber.Some? then [PrevLogNumber(e.prevLogNumber.value)] else []) by {
      assert fs + [] == fs;
    }
    fs := fs + if e.prevLogNumber.Some? then [PrevLogNumber(e.prevLogNumber.value)] else [];
    if e.nextFileNumber.Some? {
      out := Put(dst, fs, out, NextFileNumber(e.nextFileNumber.value));
    }
    assert out == dst +
                  Encode(fs + if e.nextFileNumber.Some? then [NextFileNumber(e.nextFileNumber.value)] else []) by {
      assert fs + [] == fs;
    }
    fs := fs + if e.nextFileNumber.Some? then [NextFileNumber(e.nextFileNumber.value)] else [];
    if e.lastSequence.Some? {
      out := Put(dst, fs, out, LastSequence(e.lastSequence.value));
    }
    assert out == dst + Encode(fs + if e.lastSequence.Some? then [LastSequence(e.lastSequence.value)] else []) by {
      assert fs + [] == fs;
    }
    fs := fs + if e.lastSequence.Some? then [LastSequence(e.lastSequence.value)] else [];
  }

  lemma NextField(fs: seq<Field>, all: seq<Field>, i: nat)
    requires i < |all|
    ensures fs + all[..i] + [all[i]] == fs + all[..i + 1] && fs + all[..0] == fs && all[..|all|] == all
  {
  }

  method PutPointers(ghost dst: Bytes, ghost fs: seq<Field>, start: Bytes, ps: seq<(nat, Bytes)>) returns (out: Bytes)
    requires start == dst + Encode(fs)
    ensures out == dst + Encode(fs + Pointers(ps))
  {
    hide Encode;
    out := start;
    assert fs + Pointers(ps)[..0] == fs;
    for i := 0 to |ps|
      invariant out == dst + Encode(fs + Pointers(ps)[..i])
    {
      NextField(fs, Pointers(ps), i);
      out := Put(dst, fs + Pointers(ps)[..i], out, CompactPointer(ps[i].0, ps[i].1));
    }
    assert Pointers(ps)[..|ps|] == Pointers(ps);
  }

  method PutDeletions(ghost dst: Bytes, ghost fs: seq<Field>, start: Bytes, order: seq<(nat, u64)>) returns (out: Bytes)
    requires start == dst + Encode(fs)
    ensures out == dst + Encode(fs + Deletions(order))
  {
    hide Encode;
    out := start;
    assert fs + Deletions(order)[..0] == fs;
    for i := 0 to |order|
      invariant out == dst + Encode(fs + Deletions(order)[..i])
    {
      NextField(fs, Deletions(order), i);
      out := Put(dst, fs + Deletions(order)[..i], out, DeletedFile(order[i].0, order[i].1));
    }
    assert Deletions(order)[..|order|] == Deletions(order);
  }

  method PutAdditions(ghost dst: Bytes, ghost fs: seq<Field>, start: Bytes, added: seq<(nat, FileMeta)>)
    returns (out: Bytes)
    requires start == dst + Encode(fs)
    ensures out == dst + Encode(fs + Additions(added))
  {
    hide Encode;
    out := start;
    assert fs + Additions(added)[..0] == fs;
    for i := 0 to |added|
      invariant out == dst + Encode(fs + Additions(added)[..i])
    {
      NextField(fs, Additions(added), i);
      out := Put(dst, fs + Additions(added)[..i], out, NewFile(added[i].0, added[i].1));
    }
    assert Additions(added)[..|added|] == Additions(added);
  }
}
