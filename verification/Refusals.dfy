/**
 What recovery refuses: manifests whose bytes are damaged, that hold a record which is no edit,
 that were written under another comparator, or that end before the numbers recovery needs.
 */
module Refusals {
  import opened Keys
  import opened Coding
  import opened VersionEdits
  import opened VersionSets
  import opened Log
  import opened LogDamage

  // Records that are no edit

  lemma LevelledCut(b: Bytes, level: nat, y: Bytes)
    requires b < Varint(level) + y && level < LEVELS
    ensures GetLevel(b).Bad? || (GetLevel(b) == Taken(level, GetLevel(b).rest) && GetLevel(b).rest < y)
  {
    hide Varint, Get32;
    CutWhere(b, Varint(level), y);
    if b < Varint(level) {
      NumberCut(b, level);
    } else {
      Back32(level, b[|Varint(level)|..]);
    }
  }

  /** Nothing is read of a field's value that is cut short. */
  lemma BodyCut(b: Bytes, f: Field)
    requires FieldOk(f) && b < Body(f)
    ensures GetField(TagOf(f), b).Bad?
  {
    hide Varint, Get64, GetLevel, GetSlice, LengthPrefixed;
    match f
    case Comparator(name) => SliceCut(b, name);
    case CompactPointer(level, key) =>
      LevelledCut(b, level, LengthPrefixed(key));
      if GetLevel(b).Taken? {
        SliceCut(GetLevel(b).rest, key);
      }
    case DeletedFile(level, number) =>
      LevelledCut(b, level, Varint(number));
      if GetLevel(b).Taken? {
        NumberCut(GetLevel(b).rest, number);
      }
    case NewFile(level, file) => FileCut(b, level, file);
    case LogNumber(number) => NumberCut(b, number);
    case NextFileNumber(number) => NumberCut(b, number);
    case LastSequence(number) => NumberCut(b, number);
    case PrevLogNumber(number) => NumberCut(b, number);
  }

  lemma FileCut(b: Bytes, level: nat, f: FileMeta)
    requires FieldOk(NewFile(level, f)) && b < Body(NewFile(level, f))
    ensures GetNewFile(b).Bad?
  {
    hide Varint, Get64, GetLevel, GetSlice, LengthPrefixed;
    var keys := LengthPrefixed(f.smallest) + LengthPrefixed(f.largest);
    LevelledCut(b, level, Varint(f.number) + (Varint(f.size) + keys));
    if GetLevel(b).Taken? {
      var b1 := GetLevel(b).rest;
      NumberedCut(b1, f.number, Varint(f.size) + keys);
      if Get64(b1).Taken? {
        var b2 := Get64(b1).rest;
        NumberedCut(b2, f.size, keys);
        if Get64(b2).Taken? {
          var b3 := Get64(b2).rest;
          SlicedCut(b3, f.smallest, LengthPrefixed(f.largest));
          if GetSlice(b3).Taken? {
            SliceCut(GetSlice(b3).rest, f.largest);
          }
        }
      }
    }
  }

  lemma {:induction false} DecodeOver(fs: seq<Field>, tail: Bytes, e: Edit)
    requires forall f :: f in fs ==> FieldOk(f)
    ensures Decode(Encode(fs) + tail, e) == Decode(tail, SetAll(e, fs))
    decreases |fs|
  {
    hide Varint, GetField, Get32, SetField, Body, FieldOk, EncodeField;
    if fs == [] {
      assert Encode(fs) + tail == tail;
    } else {
      var f, more := fs[0], Encode(fs[1..]) + tail;
      EncodeFieldParts(f);
      Peel(Varint(TagOf(f)), Body(f), more);
      assert Encode(fs) + tail == EncodeField(f) + more;
      Back32(TagOf(f), Body(f) + more);
      BodyBack(f, more);
      DecodeOver(fs[1..], tail, SetField(e, f));
    }
  }

  /** A tag that no field has spoils a record, whatever stands around it. */
  lemma UnknownTag(fs: seq<Field>, tag: u32, tail: Bytes, e: Edit)
    requires (forall f :: f in fs ==> FieldOk(f)) && !(1 <= tag <= 7) && tag != 9
    ensures !Decode(Encode(fs) + (Varint(tag) + tail), e).ok
  {
    hide Varint, Get32, Encode, SetAll;
    DecodeOver(fs, Varint(tag) + tail, e);
    Back32(tag, tail);
  }

  lemma FieldCut(b: Bytes, f: Field, e: Edit)
    requires FieldOk(f) && b < EncodeField(f) && b != []
    ensures !Decode(b, e).ok
  {
    hide Varint, GetField, Get32, Body, FieldOk, EncodeField;
    EncodeFieldParts(f);
    var tag := Varint(TagOf(f));
    CutWhere(b, tag, Body(f));
    if b < tag {
      NumberCut(b, TagOf(f));
    } else {
      Back32(TagOf(f), b[|tag|..]);
      BodyCut(b[|tag|..], f);
    }
  }

  /** Of a record that is cut short, just the cuts between two fields leave an edit. */
  lemma {:induction false} CutExactly(b: Bytes, fs: seq<Field>, e: Edit)
    requires (forall f :: f in fs ==> FieldOk(f)) && b <= Encode(fs)
    ensures Decode(b, e).ok <==> exists k :: 0 <= k <= |fs| && b == Encode(fs[..k])
    decreases |fs|
  {
    hide FieldOk, EncodeField, Decode;
    if k :| 0 <= k <= |fs| && b == Encode(fs[..k]) {
      DecodeFields(fs[..k], e);
    } else {
      assert b != [] by {
        assert Encode(fs[..0]) == [];
      }
      assert fs != [];
      var f := fs[0];
      CutWhere(b, EncodeField(f), Encode(fs[1..]));
      if b < EncodeField(f) {
        FieldCut(b, f, e);
      } else {
        var tail := b[|EncodeField(f)|..];
        assert EncodeField(f) <= b && b == EncodeField(f) + tail by {
          assert fs[..|fs|] == fs;
        }
        CutExactly(tail, fs[1..], SetField(e, f));
        DecodeOver([f], tail, e);
        assert [f][1..] == [] && Encode([f]) == EncodeField(f);
        SetOne(e, f);
        forall k | 0 <= k <= |fs| - 1
          ensures tail != Encode(fs[1..][..k])
        {
          EncodeMore(fs, k);
        }
      }
    }
  }

  lemma EncodeMore(fs: seq<Field>, k: nat)
    requires k < |fs|
    ensures Encode(fs[..k + 1]) == EncodeField(fs[0]) + Encode(fs[1..][..k])
  {
    assert fs[..k + 1][0] == fs[0] && fs[..k + 1][1..] == fs[1..][..k];
  }

  lemma ReadsLevel(b: Bytes)
    ensures GetLevel(b).Taken? ==> GetLevel(b).value < LEVELS
  {
  }

  lemma ReadsSlice(b: Bytes)
    ensures GetSlice(b).Taken? ==> |GetSlice(b).value| < TWO32
  {
  }

  lemma FieldFits(tag: nat, b: Bytes)
    ensures GetField(tag, b).Taken? ==> FieldOk(GetField(tag, b).value)
  {
    hide Get64, GetLevel, GetSlice;
    ReadsLevel(b);
    ReadsSlice(b);
    if GetLevel(b).Taken? {
      var b1 := GetLevel(b).rest;
      ReadsSlice(b1);
      if Get64(b1).Taken? && Get64(Get64(b1).rest).Taken? {
        var b3 := Get64(Get64(b1).rest).rest;
        ReadsSlice(b3);
        if GetSlice(b3).Taken? {
          ReadsSlice(GetSlice(b3).rest);
        }
      }
    }
  }

  lemma SetFits(e: Edit, f: Field)
    requires Encodable(e) && FieldOk(f)
    ensures Encodable(SetField(e, f))
  {
  }

  /** Whatever the bytes, an edit that is accepted names only levels that exist, so it can be written again. */
  lemma {:induction false} DecodedFits(b: Bytes, e: Edit)
    requires Encodable(e)
    ensures Encodable(Decode(b, e).edit)
    decreases |b|
  {
    hide Encodable, GetField, FieldOk, SetField, Get32;
    var tag := Get32(b);
    if tag.Taken? {
      var f := GetField(tag.value, tag.rest);
      FieldFits(tag.value, tag.rest);
      if f.Taken? {
        SetFits(e, f.value);
        DecodedFits(f.rest, SetField(e, f.value));
      }
    }
  }

  // When recovery succeeds

  lemma {:induction false} DecodeAllExactly(rs: seq<Bytes>)
    ensures DecodeAll(rs).Some? <==> forall i :: 0 <= i < |rs| ==> Decode(rs[i], EMPTY).ok
    ensures DecodeAll(rs).Some? ==>
              && |DecodeAll(rs).value| == |rs|
              && forall i :: 0 <= i < |rs| ==> DecodeAll(rs).value[i] == Decode(rs[i], EMPTY).edit
    decreases |rs|
  {
    hide Decode;
    if rs != [] {
      var n := |rs| - 1;
      DecodeAllExactly(rs[..n]);
      assert forall i :: 0 <= i < n ==> rs[..n][i] == rs[i];
    }
  }

  /** The last of the edits that carry a value decides. */
  lemma {:induction false} LastExactly(es: seq<Edit>, get: Edit -> Option<u64>)
    ensures LastOf(es, get).None? <==> forall e :: e in es ==> get(e).None?
    ensures LastOf(es, get).Some? ==>
              exists i :: 0 <= i < |es| && get(es[i]) == LastOf(es, get)
                          && forall j :: i < j < |es| ==> get(es[j]).None?
    decreases |es|
  {
    if es != [] {
      var n := |es| - 1;
      LastExactly(es[..n], get);
      assert es == es[..n] + [es[n]];
      if get(es[n]).None? && LastOf(es, get).Some? {
        var i :| 0 <= i < n && get(es[..n][i]) == LastOf(es[..n], get)
                 && forall j :: i < j < n ==> get(es[..n][j]).None?;
        assert forall j :: i < j < |es| ==> get(es[j]).None? by {
          assert forall j :: 0 <= j < n ==> es[..n][j] == es[j];
        }
      }
    }
  }

  /** A record recovery can use: an edit that does not speak of another comparator. */
  predicate Usable(r: Bytes, name: Bytes) {
    var d := Decode(r, EMPTY);
    d.ok && (d.edit.comparator.Some? ==> d.edit.comparator.value == name)
  }

  /** Some record says where the next file number, the log and the sequence numbers stand. */
  ghost predicate SaysNext(rs: seq<Bytes>) {
    exists r :: r in rs && Decode(r, EMPTY).edit.nextFileNumber.Some?
  }

  ghost predicate SaysLog(rs: seq<Bytes>) {
    exists r :: r in rs && Decode(r, EMPTY).edit.logNumber.Some?
  }

  ghost predicate SaysLast(rs: seq<Bytes>) {
    exists r :: r in rs && Decode(r, EMPTY).edit.lastSequence.Some?
  }

  /**
   Recovery of any bytes succeeds exactly if the manifest reads without a report, each record is an
   edit and none of them speaks of another comparator, and the three numbers are there.
   */
  lemma RecoversExactly(crc: Crc, name: Bytes, file: Bytes)
    ensures var (rs, reports) := AllFrom(crc, file, 0);
            RecoverFile(crc, name, file).Some?
            <==> && reports == 0 && (forall r :: r in rs ==> Usable(r, name))
                 && SaysNext(rs) && SaysLog(rs) && SaysLast(rs)
  {
    hide AllFrom, DecodeAll, Decode, RecoverEdits, LastOf;
    var rs := AllFrom(crc, file, 0).0;
    DecodeAllExactly(rs);
    if DecodeAll(rs).Some? {
      var es := DecodeAll(rs).value;
      RecoverParts(es);
      LastExactly(es, (e: Edit) => e.nextFileNumber);
      LastExactly(es, (e: Edit) => e.logNumber);
      LastExactly(es, (e: Edit) => e.lastSequence);
      EachEdit(rs, es);
    } else {
      var i :| 0 <= i < |rs| && !Decode(rs[i], EMPTY).ok;
      assert rs[i] in rs && !Usable(rs[i], name);
    }
  }

  /** Speaking of the edits is speaking of the records. */
  lemma EachEdit(rs: seq<Bytes>, es: seq<Edit>)
    requires |es| == |rs|
    requires forall i :: 0 <= i < |rs| ==> Decode(rs[i], EMPTY).ok && es[i] == Decode(rs[i], EMPTY).edit
    ensures forall name :: ComparatorsMatch(es, name) <==> forall r :: r in rs ==> Usable(r, name)
    ensures SaysNext(rs) <==> exists e :: e in es && e.nextFileNumber.Some?
    ensures SaysLog(rs) <==> exists e :: e in es && e.logNumber.Some?
    ensures SaysLast(rs) <==> exists e :: e in es && e.lastSequence.Some?
  {
    hide Decode;
    assert forall r :: r in rs ==> Decode(r, EMPTY).edit in es by {
      forall r | r in rs
        ensures Decode(r, EMPTY).edit in es
      {
        var i :| 0 <= i < |rs| && rs[i] == r;
        assert es[i] in es;
      }
    }
    assert forall e :: e in es ==> exists r :: r in rs && e == Decode(r, EMPTY).edit by {
      forall e | e in es
        ensures exists r :: r in rs && e == Decode(r, EMPTY).edit
      {
        var i :| 0 <= i < |es| && es[i] == e;
        assert rs[i] in rs;
      }
    }
  }

  // Manifests that are refused

  /** A manifest that reads with a report is refused under every name. */
  lemma ReportRefused(crc: Crc, name: Bytes, file: Bytes)
    requires AllFrom(crc, file, 0).1 > 0
    ensures RecoverFile(crc, name, file).None?
  {
    hide AllFrom, DecodeAll;
  }

  /**
   Damage to a fragment of a written manifest: recovery is refused, unless the header of a record's
   first fragment became zero.
   */
  lemma DamageRefused(crc: Crc, name: Bytes, records: seq<Bytes>, k: nat, file: Bytes, q: nat, t: byte, piece: Bytes)
    requires k < |records| && FragmentIn(|LogOf(crc, records[..k])|, records[k], true, q, t, piece)
    requires Damaged(crc, LogOf(crc, records), file, q, |piece|) && !(Zeroed(file, q) && IsStart(t))
    ensures RecoverFile(crc, name, file).None?
  {
    hide LogOf, RecordAt, FragmentIn, Damaged, RecoverFile;
    DamageReported(crc, records, k, file, q, t, piece);
    ReportRefused(crc, name, file);
  }

  /** What a written log delivers when it is cut behind record `k` or later. */
  lemma DeliveredRecord(crc: Crc, records: seq<Bytes>, k: nat, n: nat)
    requires k < |records| && |LogOf(crc, records[..k + 1])| <= n <= |LogOf(crc, records)|
    ensures records[k] in AllFrom(crc, LogOf(crc, records)[..n], 0).0
  {
    hide LogOf, AllFrom, Contained;
    ContainsAtLeast(crc, records, n, k + 1);
    CrashPrefix(crc, records, n);
    ContainedExact(crc, records, n);
    assert records[..Contained(crc, records, n)][k] == records[k];
  }

  /** A manifest with a record that is no edit is refused under every name. */
  lemma NoEditRefused(crc: Crc, name: Bytes, records: seq<Bytes>, k: nat, n: nat)
    requires k < |records| && |LogOf(crc, records[..k + 1])| <= n <= |LogOf(crc, records)|
    requires !Decode(records[k], EMPTY).ok
    ensures RecoverFile(crc, name, LogOf(crc, records)[..n]).None?
  {
    hide LogOf, AllFrom, Decode, RecoverFile;
    DeliveredRecord(crc, records, k, n);
    RecoversExactly(crc, name, LogOf(crc, records)[..n]);
    assert !Usable(records[k], name);
  }

  /** A manifest whose snapshot, or any other edit, records one comparator is refused under every other name. */
  lemma OtherNameRefused(crc: Crc, name: Bytes, ls: seq<Logged>, k: nat, n: nat)
    requires k < |ls| && LoggedOk(ls[k]) && ls[k].edit.comparator.Some? && ls[k].edit.comparator.value != name
    requires |LogOf(crc, Records(ls)[..k + 1])| <= n <= |LogOf(crc, Records(ls))|
    ensures RecoverFile(crc, name, LogOf(crc, Records(ls))[..n]).None?
  {
    hide LogOf, AllFrom, RecoverFile, Decode, Encode, Fields;
    DeliveredRecord(crc, Records(ls), k, n);
    RecoversExactly(crc, name, LogOf(crc, Records(ls))[..n]);
    EditRoundTrip(ls[k].edit, ls[k].order, EMPTY);
    FreshEdit(ls[k].edit);
    assert !Usable(Records(ls)[k], name);
  }

  /**
   A manifest as a version set writes it, cut off anywhere: with the snapshot alone recovery is
   refused for want of the numbers, and with the first edit after it the recovery succeeds.
   */
  lemma CutRecoversExactly(crc: Crc, name: Bytes, ls: seq<Logged>, n: nat)
    requires forall l :: l in ls ==> LoggedOk(l)
    requires |ls| >= 2 && (forall i :: 1 <= i < |ls| ==> Stamped(ls[i].edit)) && ls[0].edit.logNumber.None?
    requires ComparatorsMatch(Edits(ls), name) && FreshNumbers(Edits(ls)) && n <= |LogOf(crc, Records(ls))|
    ensures RecoverFile(crc, name, LogOf(crc, Records(ls))[..n]).Some?
            <==> n >= |LogOf(crc, Records(ls)[..2])|
  {
    hide LogOf, AllFrom, RecoverFile, Decode, Encode, Fields, Contained, FreshNumbers, VersionAfter;
    var rs := Records(ls);
    if n >= |LogOf(crc, rs[..2])| {
      CrashRecovery(crc, name, ls, n);
    } else {
      RecoversExactly(crc, name, LogOf(crc, rs)[..n]);
      CrashPrefix(crc, rs, n);
      ContainedExact(crc, rs, n);
      if Contained(crc, rs, n) >= 2 {
        WholeRecords(crc, rs, 2, Contained(crc, rs, n));
      }
      assert LoggedOk(ls[0]);
      EditRoundTrip(ls[0].edit, ls[0].order, EMPTY);
      FreshEdit(ls[0].edit);
      assert forall r :: r in rs[..Contained(crc, rs, n)] ==> r == rs[0];
    }
  }

  /** What a version set writes is its own: no other comparator opens it. */
  lemma ManifestIsItsOwn(vs: VersionSet, other: Bytes)
    requires vs.Valid() && vs.manifest != null && !vs.torn && other != vs.name
    ensures RecoverFile(vs.crc, other, vs.manifest.dest).None?
  {
    hide LogOf, RecoverFile, LoggedOk, VersionFits, FreshNumbers, StartsAt;
    var rs := Records(vs.ls);
    var n := |LogOf(vs.crc, rs)|;
    assert rs[..|rs|] == rs && LogOf(vs.crc, rs)[..n] == LogOf(vs.crc, rs);
    WholeRecords(vs.crc, rs, 1, |rs|);
    OtherNameRefused(vs.crc, other, vs.ls, 0, n);
  }
}
