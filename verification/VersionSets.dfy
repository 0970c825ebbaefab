/**
 The version set: each edit is logged to the manifest and applied to the current version, and a
 manifest, cut off anywhere by a crash, is replayed on recovery.
 */
module VersionSets {
  import opened Keys
  import opened Coding
  import opened VersionEdits
  import opened Manifest
  import opened FileNumbers
  import opened Log

  const NO_FILES: Levels := [[], [], [], [], [], [], []]

  /** The numbers that every logged edit carries. */
  datatype Marks = Marks(logNumber: u64, prevLogNumber: u64, nextFileNumber: u64, lastSequence: u64)

  /** An edit and the order in which its deleted files are written. */
  datatype Logged = Logged(edit: Edit, order: seq<(nat, u64)>)

  ghost predicate LoggedOk(l: Logged) {
    Encodable(l.edit) && Lists(l.order, l.edit.deleted)
  }

  function RecordOf(l: Logged): Bytes {
    Encode(Fields(l.edit, l.order))
  }

  function Records(ls: seq<Logged>): (rs: seq<Bytes>)
    ensures |rs| == |ls|
  {
    seq(|ls|, i requires 0 <= i < |ls| => RecordOf(ls[i]))
  }

  function Edits(ls: seq<Logged>): (es: seq<Edit>)
    ensures |es| == |ls| && forall i :: 0 <= i < |ls| ==> es[i] == ls[i].edit
  {
    seq(|ls|, i requires 0 <= i < |ls| => ls[i].edit)
  }

  /** The version that the edits lead to, each applied to the version before it. */
  function VersionAfter(es: seq<Edit>): Levels {
    seq(LEVELS, (level: nat) => History([], es, level))
  }

  // Recovery as a function of the manifest's bytes

  function DecodeAll(rs: seq<Bytes>): Option<seq<Edit>> {
    if rs == [] then Some([])
    else
      var front := DecodeAll(rs[..|rs| - 1]);
      var d := Decode(rs[|rs| - 1], EMPTY);
      if front.None? || !d.ok then None else Some(front.value + [d.edit])
  }

  predicate ComparatorsMatch(es: seq<Edit>, name: Bytes) {
    forall e :: e in es ==> e.comparator.Some? ==> e.comparator.value == name
  }

  /** The last value that an edit carries, if any. */
  function LastOf(es: seq<Edit>, get: Edit -> Option<u64>): Option<u64> {
    if es == [] then None
    else if get(es[|es| - 1]).Some? then get(es[|es| - 1])
    else LastOf(es[..|es| - 1], get)
  }

  datatype Recovered = Recovered(levels: Levels, marks: Marks)

  function RecoverEdits(es: seq<Edit>): Option<Recovered> {
    var next := LastOf(es, (e: Edit) => e.nextFileNumber);
    var log := LastOf(es, (e: Edit) => e.logNumber);
    var last := LastOf(es, (e: Edit) => e.lastSequence);
    var prev := LastOf(es, (e: Edit) => e.prevLogNumber);
    if next.None? || log.None? || last.None? then None
    else Some(Recovered(seq(LEVELS, (level: nat) => Replay([], es, level)),
                        Marks(log.value, if prev.Some? then prev.value else 0, next.value, last.value)))
  }

  /** None stands for a reported corruption or a comparator mismatch. */
  ghost function RecoverFile(crc: Crc, name: Bytes, file: Bytes): Option<Recovered> {
    var (records, reports) := AllFrom(crc, file, 0);
    var es := DecodeAll(records);
    if reports > 0 || es.None? || !ComparatorsMatch(es.value, name) then None else RecoverEdits(es.value)
  }

  lemma {:induction false} DecodeAllBack(ls: seq<Logged>)
    requires forall l :: l in ls ==> LoggedOk(l)
    ensures DecodeAll(Records(ls)) == Some(Edits(ls))
    decreases |ls|
  {
    hide Encodable, Lists, Decode, Encode, Fields;
    if ls != [] {
      var n := |ls| - 1;
      assert LoggedOk(ls[n]);
      DecodeAllBack(ls[..n]);
      assert Records(ls)[..n] == Records(ls[..n]);
      EditRoundTrip(ls[n].edit, ls[n].order, EMPTY);
      FreshEdit(ls[n].edit);
      assert Edits(ls) == Edits(ls[..n]) + [ls[n].edit];
    }
  }

  lemma FreshEdit(e: Edit)
    ensures Cleared(EMPTY) == EMPTY && e.(compactPointers := EMPTY.compactPointers + e.compactPointers) == e
  {
    assert [] + e.compactPointers == e.compactPointers;
  }

  ghost predicate Stamped(e: Edit) {
    e.logNumber.Some? && e.prevLogNumber.Some? && e.nextFileNumber.Some? && e.lastSequence.Some?
  }

  ghost function MarksOf(e: Edit): Marks
    requires Stamped(e)
  {
    Marks(e.logNumber.value, e.prevLogNumber.value, e.nextFileNumber.value, e.lastSequence.value)
  }

  /** No number is used twice on any level. */
  ghost predicate FreshNumbers(es: seq<Edit>) {
    forall level :: 0 <= level < LEVELS ==> NumbersOnce([], es, level)
  }

  lemma {:induction false} FreshPrefix(es: seq<Edit>, k: nat)
    requires FreshNumbers(es) && k <= |es|
    ensures FreshNumbers(es[..k])
    decreases |es| - k
  {
    hide NumbersOnce;
    if k < |es| {
      FreshPrefix(es, k + 1);
      var up := es[..k + 1];
      assert up[..|up| - 1] == es[..k];
      forall level | 0 <= level < LEVELS
        ensures NumbersOnce([], es[..k], level)
      {
        LastEdit([], up, level);
      }
    } else {
      assert es[..k] == es;
    }
  }

  /** Recovering from edits whose last one is stamped gives the version they lead to and the last edit's numbers. */
  lemma RecoverEditsIs(es: seq<Edit>)
    requires es != [] && Stamped(es[|es| - 1]) && FreshNumbers(es)
    ensures RecoverEdits(es) == Some(Recovered(VersionAfter(es), MarksOf(es[|es| - 1])))
  {
    hide Replay, History, NumbersOnce;
    forall level | 0 <= level < LEVELS
      ensures Replay([], es, level) == History([], es, level)
    {
      assert NumbersOnce([], es, level);
      assert Ordered([]);
      ReplayIsHistory([], es, level);
    }
    assert (seq(LEVELS, (level: nat) => Replay([], es, level))) == VersionAfter(es);
  }

  /** A prefix of the file that holds the first `m` records holds at least `m`. */
  lemma ContainsAtLeast(crc: Crc, records: seq<Bytes>, n: nat, m: nat)
    requires m <= |records| && |LogOf(crc, records[..m])| <= n
    ensures Contained(crc, records, n) >= m
  {
    hide LogOf;
    ContainedExact(crc, records, n);
    var k := Contained(crc, records, n);
    var j := if k < m then k + 1 else m;
    LogPrefix(crc, records[..m], j);
    assert records[..m][..j] == records[..j];
  }

  /**
   Recovery after a crash. However many bytes of the manifest survive, as long as they hold the
   snapshot and the first edit after it, recovery succeeds and yields exactly the version and the
   numbers of the last edit that lies wholly in them.
   */
  lemma CrashRecovery(crc: Crc, name: Bytes, ls: seq<Logged>, n: nat)
    requires forall l :: l in ls ==> LoggedOk(l)
    requires |ls| >= 2 && (forall i :: 1 <= i < |ls| ==> Stamped(ls[i].edit))
    requires ComparatorsMatch(Edits(ls), name) && FreshNumbers(Edits(ls))
    requires |LogOf(crc, Records(ls)[..2])| <= n <= |LogOf(crc, Records(ls))|
    ensures var k := Contained(crc, Records(ls), n);
            && 2 <= k <= |ls|
            && RecoverFile(crc, name, LogOf(crc, Records(ls))[..n])
               == Some(Recovered(VersionAfter(Edits(ls)[..k]), MarksOf(ls[k - 1].edit)))
  {
    hide LogOf, AllFrom, Contained, LoggedOk, RecoverEdits, DecodeAll, FreshNumbers, VersionAfter;
    var rs := Records(ls);
    var k := Contained(crc, rs, n);
    CrashPrefix(crc, rs, n);
    ContainsAtLeast(crc, rs, n, 2);
    var kept := ls[..k];
    assert Records(kept) == rs[..k] by {
      hide RecordOf;
    }
    assert Edits(kept) == Edits(ls)[..k];
    DecodeAllBack(kept);
    FreshPrefix(Edits(ls), k);
    RecoverEditsIs(Edits(kept));
    assert forall e :: e in Edits(kept) ==> e in Edits(ls);
  }

  lemma LeadsSome(ls: seq<Logged>, name: Bytes, v: Levels)
    requires Leads(ls, name, v)
    ensures |ls| >= 1
  {
  }

  /** A manifest that is whole recovers to the version it leads to and the numbers of its last edit. */
  lemma WholeRecovers(crc: Crc, name: Bytes, ls: seq<Logged>, v: Levels)
    requires Leads(ls, name, v) && |ls| >= 2
    ensures Stamped(ls[|ls| - 1].edit)
    ensures RecoverFile(crc, name, LogOf(crc, Records(ls))) == Some(Recovered(v, MarksOf(ls[|ls| - 1].edit)))
  {
    hide LogOf, RecoverFile, Contained, LoggedOk, FreshNumbers, VersionAfter;
    var rs := Records(ls);
    var n := |LogOf(crc, rs)|;
    assert rs[..|rs|] == rs && LogOf(crc, rs)[..n] == LogOf(crc, rs);
    WholeRecords(crc, rs, 2, |rs|);
    CrashRecovery(crc, name, ls, n);
    ContainsAtLeast(crc, rs, n, |rs|);
    assert Edits(ls)[..|ls|] == Edits(ls);
  }

  // Writing the manifest

  /** The files of one level, tagged with it. */
  function Tagged(files: seq<FileMeta>, level: nat): seq<(nat, FileMeta)> {
    seq(|files|, i requires 0 <= i < |files| => (level, files[i]))
  }

  function AllFiles(v: Levels, n: nat): seq<(nat, FileMeta)>
    requires n <= LEVELS
  {
    if n == 0 then [] else AllFiles(v, n - 1) + Tagged(v[n - 1], n - 1)
  }

  /** The edit that recreates a version from nothing. */
  function SnapshotEdit(v: Levels, name: Bytes, pointers: seq<(nat, Bytes)>): Edit {
    EMPTY.(comparator := Some(name), compactPointers := pointers, added := AllFiles(v, LEVELS))
  }

  lemma {:induction false} AddedAtAppend(a: seq<(nat, FileMeta)>, b: seq<(nat, FileMeta)>, level: nat)
    ensures AddedAt(a + b, level) == AddedAt(a, level) + AddedAt(b, level)
    decreases |b|
  {
    if b == [] {
      assert a + b == a;
    } else {
      assert (a + b)[..|a + b| - 1] == a + b[..|b| - 1];
      AddedAtAppend(a, b[..|b| - 1], level);
    }
  }

  lemma {:induction false} AddedAtTagged(files: seq<FileMeta>, k: nat, level: nat)
    ensures AddedAt(Tagged(files, k), level) == if k == level then files else []
    decreases |files|
  {
    if files != [] {
      var front := files[..|files| - 1];
      assert Tagged(files, k)[..|files| - 1] == Tagged(front, k);
      AddedAtTagged(front, k, level);
      assert front + [files[|files| - 1]] == files;
    }
  }

  lemma {:induction false} AllFilesAt(v: Levels, n: nat, level: nat)
    requires n <= LEVELS && level < LEVELS
    ensures AddedAt(AllFiles(v, n), level) == if level < n then v[level] else []
    decreases n
  {
    if n > 0 {
      AllFilesAt(v, n - 1, level);
      AddedAtAppend(AllFiles(v, n - 1), Tagged(v[n - 1], n - 1), level);
      AddedAtTagged(v[n - 1], n - 1, level);
      hide AddedAt;
      assert v[n - 1] == [] + v[n - 1];
    }
  }

  ghost predicate VersionFits(v: Levels) {
    forall level :: 0 <= level < LEVELS ==> Ordered(v[level]) && DistinctNumbers(v[level])
  }

  /** Replaying a snapshot recreates the version. */
  lemma SnapshotRestores(v: Levels, name: Bytes, pointers: seq<(nat, Bytes)>)
    requires VersionFits(v)
    ensures VersionAfter([SnapshotEdit(v, name, pointers)]) == v
  {
    var e := SnapshotEdit(v, name, pointers);
    forall level | 0 <= level < LEVELS
      ensures History([], [e], level) == v[level]
    {
      SnapshotLevel(v, e, level);
    }
  }

  lemma SnapshotLevel(v: Levels, e: Edit, level: nat)
    requires VersionFits(v) && level < LEVELS && e.added == AllFiles(v, LEVELS) && e.deleted == {}
    ensures History([], [e], level) == v[level]
  {
    AllFilesAt(v, LEVELS, level);
    assert Ordered(v[level]) && DistinctNumbers(v[level]) && DeletedAt(e, level) == {};
    assert [e][..0] == [];
    assert History([], [], level) == [];
    assert History([], [e], level) == Saved([], Applied(UNTOUCHED, e, level));
    hide AddedAt, DeletedAt, Saved, Applied, History, Ordered, DistinctNumbers, AllFiles;
    OrderedNone();
    StepAdds(UNTOUCHED, e, level, []);
    SavedIs([], Applied(UNTOUCHED, e, level));
    assert [] + v[level] == v[level];
    OrderedUnique(Saved([], Applied(UNTOUCHED, e, level)), v[level]);
  }

  lemma VersionStep(es: seq<Edit>, e: Edit, level: nat)
    requires level < LEVELS
    ensures VersionAfter(es + [e])[level] == Saved(VersionAfter(es)[level], Applied(UNTOUCHED, e, level))
  {
    assert (es + [e])[..|es|] == es;
  }

  /** What a manifest holds, from its snapshot on, leads to the version `v`. */
  ghost predicate Leads(ls: seq<Logged>, name: Bytes, v: Levels) {
    && |ls| >= 1 && (forall l :: l in ls ==> LoggedOk(l)) && (forall i :: 1 <= i < |ls| ==> Stamped(ls[i].edit))
    && ComparatorsMatch(Edits(ls), name) && FreshNumbers(Edits(ls)) && v == VersionAfter(Edits(ls))
  }

  lemma SnapshotLeads(v: Levels, name: Bytes, pointers: seq<(nat, Bytes)>)
    requires VersionFits(v) && LoggedOk(Logged(SnapshotEdit(v, name, pointers), []))
    requires FreshNumbers([SnapshotEdit(v, name, pointers)])
    ensures Leads([Logged(SnapshotEdit(v, name, pointers), [])], name, v)
  {
    hide FreshNumbers, LoggedOk, VersionAfter;
    var l := Logged(SnapshotEdit(v, name, pointers), []);
    SnapshotRestores(v, name, pointers);
    assert Edits([l]) == [l.edit];
    assert l.edit.comparator == Some(name);
  }

  lemma LeadsFurther(ls: seq<Logged>, l: Logged, name: Bytes, v: Levels, v': Levels)
    requires Leads(ls, name, v) && LoggedOk(l) && Stamped(l.edit) && l.edit.comparator.None?
    requires FreshNumbers(Edits(ls + [l]))
    requires forall k :: 0 <= k < LEVELS ==> v'[k] == Saved(v[k], Applied(UNTOUCHED, l.edit, k))
    ensures Leads(ls + [l], name, v') && VersionFits(v')
  {
    hide FreshNumbers, LoggedOk, VersionAfter, Saved, Applied, VersionFits;
    assert Edits(ls + [l]) == Edits(ls) + [l.edit];
    forall k | 0 <= k < LEVELS
      ensures v'[k] == VersionAfter(Edits(ls + [l]))[k]
    {
      VersionStep(Edits(ls), l.edit, k);
    }
    assert v' == VersionAfter(Edits(ls + [l]));
    AfterFits(Edits(ls + [l]));
  }

  lemma AfterFits(es: seq<Edit>)
    requires FreshNumbers(es)
    ensures VersionFits(VersionAfter(es))
  {
    hide Ordered, DistinctNumbers, History;
    forall k | 0 <= k < LEVELS
      ensures Ordered(History([], es, k)) && DistinctNumbers(History([], es, k))
    {
      assert NumbersOnce([], es, k);
      OrderedNone();
      HistoryIs([], es, k);
      HistoryDistinct(History([], es, k), AllAdded(es, k));
    }
  }

  lemma NotAheadOfItself(f: FileMeta)
    ensures !Ahead(f, f)
  {
  }

  lemma HistoryDistinct(h: seq<FileMeta>, all: seq<FileMeta>)
    requires Ordered(h) && DistinctNumbers([] + all) && forall f :: f in h ==> f in all
    ensures DistinctNumbers(h)
  {
    assert [] + all == all;
    hide Ahead;
    forall i, j | 0 <= i < j < |h|
      ensures h[i].number != h[j].number
    {
      assert Ahead(h[i], h[j]) && h[i] in all && h[j] in all;
      NotAheadOfItself(h[i]);
      OneByNumber(all, h[i], h[j]);
    }
  }

  lemma OneByNumber(all: seq<FileMeta>, f: FileMeta, g: FileMeta)
    requires DistinctNumbers(all) && f in all && g in all && f != g
    ensures f.number != g.number
  {
    var a :| 0 <= a < |all| && all[a] == f;
    var b :| 0 <= b < |all| && all[b] == g;
    assert a < b ==> all[a].number != all[b].number;
    assert b < a ==> all[b].number != all[a].number;
  }

  lemma OkParts(l: Logged)
    requires LoggedOk(l)
    ensures InLevels(l.edit) && Lists(l.order, l.edit.deleted)
  {
  }

  lemma SameEffect(e: Edit, edit: Edit, level: nat)
    requires e.added == edit.added && e.deleted == edit.deleted
    ensures Applied(UNTOUCHED, e, level) == Applied(UNTOUCHED, edit, level)
  {
  }

  lemma PrefixLeads(v: Levels, name: Bytes, pointers: seq<(nat, Bytes)>, all: seq<Logged>)
    requires VersionFits(v) && |all| == 2 && all[0] == Logged(SnapshotEdit(v, name, pointers), [])
    requires (forall l :: l in all ==> LoggedOk(l)) && FreshNumbers(Edits(all))
    ensures Leads([all[0]], name, v)
  {
    hide SnapshotEdit, LoggedOk, FreshNumbers;
    assert Edits(all)[..1] == [all[0].edit];
    FreshPrefix(Edits(all), 1);
    SnapshotLeads(v, name, pointers);
  }

  lemma RecordsMore(crc: Crc, ls: seq<Logged>, l: Logged)
    ensures LogOf(crc, Records(ls + [l])) == LogOf(crc, Records(ls)) +
                                             Fragments(crc, Off(|LogOf(crc, Records(ls))|), RecordOf(l), true)
  {
    hide RecordOf, Fragments, LogOf;
    assert Records(ls + [l]) == Records(ls) + [RecordOf(l)];
    AppendExtends(crc, Records(ls), RecordOf(l));
  }

  /** Every file ever added to each level. */
  function AllAdds(es: seq<Edit>): Levels {
    seq(LEVELS, (l: nat) => AllAdded(es, l))
  }

  lemma AddsSnoc(es: seq<Edit>, e: Edit)
    ensures AllAdds(es + [e]) == WithAdded(AllAdds(es), e)
  {
    assert (es + [e])[..|es|] == es;
    forall l: nat | l < LEVELS
      ensures AllAdds(es + [e])[l] == WithAdded(AllAdds(es), e)[l]
    {
    }
  }

  lemma SnapshotAdds(v: Levels, name: Bytes, pointers: seq<(nat, Bytes)>)
    ensures AllAdds([SnapshotEdit(v, name, pointers)]) == v
  {
    var e := SnapshotEdit(v, name, pointers);
    assert [e][..0] == [];
    forall l: nat | l < LEVELS
      ensures AllAdded([e], l) == v[l]
    {
      AllFilesAt(v, LEVELS, l);
      assert AllAdded([], l) == [];
      assert [] + v[l] == v[l];
    }
  }

  /** Traced numbers are given to no level twice. */
  lemma TracedIsFresh(es: seq<Edit>, v: Levels, issued: set<u64>, next: nat)
    requires Traced(AllAdds(es), v, issued, next)
    ensures FreshNumbers(es)
  {
    hide AllAdded;
    forall level: nat | level < LEVELS
      ensures NumbersOnce([], es, level)
    {
      assert [] + AllAdded(es, level) == AllAdds(es)[level];
    }
  }

  /** What saving an edit leaves on each level. */
  lemma SavedAfter(adds: Levels, v: Levels, issued: set<u64>, next: nat, e: Edit, v': Levels)
    requires VersionFits(v) && Traced(adds, v, issued, next) && EditOk(e, v, issued)
    requires forall k :: 0 <= k < LEVELS ==> v'[k] == Saved(v[k], Applied(UNTOUCHED, e, k))
    ensures After(v, e, v')
  {
    hide AfterAt, Saved, Applied, VersionFits, Traced, EditOk;
    forall l: nat | l < LEVELS
      ensures AfterAt(v[l], e, v'[l], l)
    {
      SavedLevel(adds, v, issued, next, e, l);
    }
  }

  lemma SavedLevel(adds: Levels, v: Levels, issued: set<u64>, next: nat, e: Edit, l: nat)
    requires VersionFits(v) && Traced(adds, v, issued, next) && EditOk(e, v, issued) && l < LEVELS
    ensures AfterAt(v[l], e, Saved(v[l], Applied(UNTOUCHED, e, l)), l)
  {
    AddedAtIs(e.added, l);
    var fs := AddedAt(e.added, l);
    forall f, g | f in v[l] && g in fs
      ensures f.number != g.number
    {
      NewThere(adds, v, issued, next, e, l, g);
      HasIt(adds[l], f);
    }
    assert Ordered(v[l]);
    hide AddedAt, DeletedAt, Saved, Applied, Ordered, DistinctNumbers, VersionFits, Traced, EditOk;
    OrderedNone();
    StepAdds(UNTOUCHED, e, l, []);
    assert [] + fs == fs;
    SavedIs(v[l], Applied(UNTOUCHED, e, l));
  }

  /** A version set may start from these files: their numbers are all below the counter. */
  ghost predicate StartOk(v: Levels, next: nat) {
    VersionFits(v) && Traced(v, v, {}, next)
  }

  /** A version set may start from what the first `k` records hold. */
  ghost predicate StartsAt(ls: seq<Logged>, k: nat)
    requires 0 < k <= |ls|
  {
    ls[k - 1].edit.nextFileNumber.Some? && StartOk(VersionAfter(Edits(ls)[..k]), ls[k - 1].edit.nextFileNumber.value)
  }

  lemma TracedStarts(adds: Levels, v: Levels, issued: set<u64>, next: nat)
    requires VersionFits(v) && Traced(adds, v, issued, next)
    ensures StartOk(v, next)
  {
    forall l, m, n | 0 <= l < m < LEVELS && HasNumber(v[l], n)
      ensures !HasNumber(v[m], n)
    {
      HasMore(v[m], adds[m], n);
    }
    assert forall l :: 0 <= l < LEVELS ==> DistinctNumbers(v[l]);
  }

  lemma HasMore(a: seq<FileMeta>, b: seq<FileMeta>, n: u64)
    requires forall f :: f in a ==> f in b
    ensures HasNumber(a, n) ==> HasNumber(b, n)
  {
  }

  lemma LeadsTo(ls: seq<Logged>, name: Bytes, v: Levels)
    requires Leads(ls, name, v)
    ensures v == VersionAfter(Edits(ls))
  {
  }

  lemma StartsEarlier(ls: seq<Logged>, l: Logged, k: nat)
    requires 0 < k <= |ls|
    ensures StartsAt(ls + [l], k) == StartsAt(ls, k)
  {
    hide StartOk;
    assert Edits(ls + [l])[..k] == Edits(ls)[..k];
  }

  lemma StartsLast(ls: seq<Logged>, v: Levels, next: u64)
    requires ls != [] && ls[|ls| - 1].edit.nextFileNumber == Some(next) && StartOk(v, next)
    requires v == VersionAfter(Edits(ls))
    ensures StartsAt(ls, |ls|)
  {
    hide StartOk;
    assert Edits(ls)[..|ls|] == Edits(ls);
  }

  /**
   Recovery starts a version set again. However many bytes of the manifest survive, the files that
   recovery finds bear numbers below the counter it restores, each on one level and there once.
   */
  lemma CrashStarts(crc: Crc, name: Bytes, ls: seq<Logged>, n: nat)
    requires forall l :: l in ls ==> LoggedOk(l)
    requires |ls| >= 2 && (forall i :: 1 <= i < |ls| ==> Stamped(ls[i].edit))
    requires ComparatorsMatch(Edits(ls), name) && FreshNumbers(Edits(ls))
    requires forall k :: 2 <= k <= |ls| ==> StartsAt(ls, k)
    requires |LogOf(crc, Records(ls)[..2])| <= n <= |LogOf(crc, Records(ls))|
    ensures var r := RecoverFile(crc, name, LogOf(crc, Records(ls))[..n]);
            r.Some? && StartOk(r.value.levels, r.value.marks.nextFileNumber)
  {
    hide LogOf, RecoverFile, Contained, LoggedOk, FreshNumbers, StartOk, VersionAfter, ComparatorsMatch;
    CrashRecovery(crc, name, ls, n);
    assert StartsAt(ls, Contained(crc, Records(ls), n));
  }

  lemma StartsAgain(v: Levels, next: nat)
    ensures StartOk(v, next) ==> VersionFits(v) && Traced(v, v, {}, next + 1)
  {
  }

  /** Part of one more record is in the manifest. */
  ghost predicate PartlyLogged(crc: Crc, ls: seq<Logged>, l: Logged, dest: Bytes) {
    && LogOf(crc, Records(ls)) <= dest <= LogOf(crc, Records(ls + [l]))
    && LoggedOk(l) && Stamped(l.edit) && l.edit.comparator.None? && FreshNumbers(Edits(ls + [l]))
    && StartsAt(ls + [l], |ls| + 1)
  }

  /** After a failed write, recovery gives the version before the edit or the one after it. */
  lemma TornRecovers(crc: Crc, name: Bytes, ls: seq<Logged>, l: Logged, dest: Bytes, v: Levels)
    requires |ls| >= 2 && Leads(ls, name, v) && PartlyLogged(crc, ls, l, dest)
    ensures RecoverFile(crc, name, dest) == Some(Recovered(v, MarksOf(ls[|ls| - 1].edit)))
            || RecoverFile(crc, name, dest) == Some(Recovered(VersionAfter(Edits(ls + [l])), MarksOf(l.edit)))
  {
    hide LogOf, RecoverFile, VersionAfter, FreshNumbers, LoggedOk, Contained;
    var all, n := ls + [l], |dest|;
    assert Edits(all) == Edits(ls) + [l.edit];
    assert Records(all)[..2] == Records(ls)[..2] by {
      hide RecordOf;
    }
    assert Records(all)[..|ls|] == Records(ls) by {
      hide RecordOf;
    }
    LogPrefix(crc, Records(ls), 2);
    ContainsAtLeast(crc, Records(all), n, |ls|);
    CrashRecovery(crc, name, all, n);
    var k := Contained(crc, Records(all), n);
    assert dest == LogOf(crc, Records(all))[..n];
    assert Edits(all)[..|ls|] == Edits(ls) && Edits(all)[..|all|] == Edits(all);
  }

  class VersionSet {
    const crc: Crc
    const name: Bytes
    var current: Levels
    var marks: Marks
    var manifest: Writer?
    ghost var ls: seq<Logged>    // what the manifest holds
    ghost var issued: set<u64>   // file numbers handed out and not used yet
    ghost var torn: bool         // a write to the manifest has failed

    constructor (crc: Crc, name: Bytes)
      ensures this.crc == crc && this.name == name && Valid() && current == NO_FILES && manifest == null
      ensures marks == Marks(0, 0, 2, 0)
    {
      this.crc, this.name := crc, name;
      current, marks, manifest, ls := NO_FILES, Marks(0, 0, 2, 0), null, [];
      issued, torn := {}, false;
    }

    /** What the manifest holds leads to the current version, and file numbers come from the counter. */
    ghost predicate Valid()
      reads this, manifest
    {
      && VersionFits(current) && Traced(Adds(), current, issued, marks.nextFileNumber)
      && (manifest == null ==> ls == [] && !torn)
      && (manifest != null ==> manifest.crc == crc && Held() && if torn then Torn() else Whole())
    }

    ghost predicate Whole()
      requires manifest != null
      reads this, manifest
    {
      manifest.Valid() && manifest.dest == LogOf(crc, Records(ls))
    }

    ghost predicate Torn()
      requires manifest != null
      reads this, manifest
    {
      exists l :: PartlyLogged(crc, ls, l, manifest.dest)
    }

    ghost predicate Held()
      reads this
    {
      && |ls| >= 2 && Leads(ls, name, current) && ls[0].edit.comparator == Some(name)
      && ls[|ls| - 1].edit.logNumber == Some(marks.logNumber)
      && ls[|ls| - 1].edit.prevLogNumber == Some(marks.prevLogNumber)
      && forall k :: 2 <= k <= |ls| ==> StartsAt(ls, k)
    }

    /** Every file ever added, as far as the manifest tells. */
    ghost function Adds(): Levels
      reads this
    {
      if manifest == null then current else AllAdds(Edits(ls))
    }

    method NewFileNumber() returns (n: u64)
      requires Valid() && marks.nextFileNumber + 1 < TWO64
      modifies this
      ensures Valid() && n == old(marks.nextFileNumber) && issued == old(issued) + {n}
      ensures marks == old(marks).(nextFileNumber := n + 1) && current == old(current) && manifest == old(manifest)
      ensures ls == old(ls) && torn == old(torn)
    {
      hide Leads, VersionFits, Traced, PartlyLogged, LogOf, Records, AllAdds;
      n := marks.nextFileNumber;
      TracedIssue(Adds(), current, issued, n);
      marks := marks.(nextFileNumber := n + 1);
      issued := issued + {n};
    }

    /** Gives back a number that no file was given, if no other was handed out since. */
    method ReuseFileNumber(n: u64)
      requires Valid() && n in issued
      modifies this
      ensures Valid() && issued == old(issued) - {n}
      ensures marks == if old(marks.nextFileNumber) == n + 1 then old(marks).(nextFileNumber := n) else old(marks)
      ensures current == old(current) && manifest == old(manifest) && ls == old(ls) && torn == old(torn)
    {
      hide Leads, VersionFits, Traced, PartlyLogged, LogOf, Records, AllAdds, StartsAt;
      TracedReuse(Adds(), current, issued, marks.nextFileNumber, n);
      if marks.nextFileNumber == n + 1 {
        marks := marks.(nextFileNumber := n);
      }
      issued := issued - {n};
    }

    /** The edit as it is logged: with the numbers it does not carry filled in. */
    function StampedEdit(e: Edit): Edit
      reads this
    {
      e.(logNumber := if e.logNumber.Some? then e.logNumber else Some(marks.logNumber),
      prevLogNumber := if e.prevLogNumber.Some? then e.prevLogNumber else Some(marks.prevLogNumber),
      nextFileNumber := Some(marks.nextFileNumber),
      lastSequence := Some(marks.lastSequence))
    }

    /** The edits in the manifest once `e` is logged; the first edit to a new manifest follows a snapshot. */
    ghost function LoggedAfter(e: Edit, order: seq<(nat, u64)>, pointers: seq<(nat, Bytes)>): seq<Logged>
      reads this
    {
      (if manifest == null then [Logged(SnapshotEdit(current, name, pointers), [])] else ls) +
      [Logged(StampedEdit(e), order)]
    }

    /**
     Logs an edit and installs the version it leads to. `reached` is None if the write succeeds;
     otherwise it tells how many bytes of the record reached the file.
     */
    method LogAndApply(e: Edit, order: seq<(nat, u64)>, pointers: seq<(nat, Bytes)>, reached: Option<nat>)
      returns (ok: bool)
      requires Valid() && !torn && e.comparator.None?
      requires e.logNumber.Some? ==> marks.logNumber <= e.logNumber.value < marks.nextFileNumber
      requires forall l :: l in LoggedAfter(e, order, pointers) ==> LoggedOk(l)
      requires EditOk(e, current, issued)
      modifies this, manifest
      ensures Valid() && ok == reached.None?
      ensures marks.nextFileNumber == old(marks.nextFileNumber) && marks.lastSequence == old(marks.lastSequence)
      ensures old(manifest) != null ==> manifest == old(manifest)
      ensures ok ==> manifest != null && !torn && ls == old(LoggedAfter(e, order, pointers))
      ensures ok ==> issued == old(issued) - NumbersOf(e.added)
      ensures ok && old(manifest) == null ==> fresh(manifest)
      ensures ok ==> forall k :: 0 <= k < LEVELS ==> current[k] == Saved(old(current)[k], Applied(UNTOUCHED, e, k))
      ensures ok ==> RecoverFile(crc, name, manifest.dest) == Some(Recovered(current, marks))
      ensures !ok ==> current == old(current) && marks == old(marks) && ls == old(ls) && issued == old(issued)
      ensures !ok ==> manifest == old(manifest)
      ensures !ok && manifest != null ==>
                torn && PartlyLogged(crc, ls, old(Logged(StampedEdit(e), order)), manifest.dest)
    {
      hide Leads, LogOf, Fragments, Applied, Saved, VersionFits, FreshNumbers, LoggedOk, SnapshotEdit;
      hide RecordOf, Records, Traced, EditOk, After, PartlyLogged, StartsAt, StartOk, VersionAfter, RecoverFile;
      var edit := StampedEdit(e);
      ghost var l, all := Logged(edit, order), LoggedAfter(e, order, pointers);
      assert all[|all| - 1] == l && LoggedOk(l);
      var v := BuildNext(e, edit, order);
      if manifest != null {
        LeadsTo(ls, name, current);
      }
      NextLogged(current, issued, marks.nextFileNumber, name, pointers, manifest == null, ls, all, l, e, v);
      if reached.Some? {
        if manifest != null {
          FailWrite(edit, order, reached.value);
        }
        return false;
      }
      if manifest == null {
        PrefixLeads(current, name, pointers, all);
        WriteSnapshot(pointers);
      }
      Install(edit, order, v, issued - NumbersOf(e.added));
      return true;
    }

    /** The version the edit leads to. */
    method BuildNext(e: Edit, edit: Edit, order: seq<(nat, u64)>) returns (v: Levels)
      requires LoggedOk(Logged(edit, order)) && e.added == edit.added && e.deleted == edit.deleted
      ensures forall k :: 0 <= k < LEVELS ==> v[k] == Saved(current[k], Applied(UNTOUCHED, e, k))
      ensures forall k :: 0 <= k < LEVELS ==> v[k] == Saved(current[k], Applied(UNTOUCHED, edit, k))
    {
      hide LoggedOk, InLevels, Lists, Saved, Applied;
      OkParts(Logged(edit, order));
      var builder := new Builder(current);
      builder.Apply(edit, order);
      v := builder.SaveTo();
      forall k | 0 <= k < LEVELS
        ensures v[k] == Saved(current[k], Applied(UNTOUCHED, e, k))
      {
        SameEffect(e, edit, k);
      }
    }

    /** The write fails after `n` bytes: whoever sees this stops writing. */
    method FailWrite(edit: Edit, order: seq<(nat, u64)>, n: nat)
      requires manifest != null && manifest.dest == LogOf(crc, Records(ls)) && LoggedOk(Logged(edit, order))
      requires Stamped(edit) && edit.comparator.None? && FreshNumbers(Edits(ls + [Logged(edit, order)]))
      requires StartsAt(ls + [Logged(edit, order)], |ls| + 1)
      modifies this`torn, manifest
      ensures torn && PartlyLogged(crc, ls, Logged(edit, order), manifest.dest)
    {
      hide LogOf, Records, RecordOf, LoggedOk, FreshNumbers, Stamped, StartsAt;
      LogsFurther(crc, ls, Logged(edit, order));
      manifest.dest := PartOf(crc, manifest.dest, RecordOf(Logged(edit, order)), n);
      torn := true;
    }

    /** Appends the record and makes the version current. */
    method Install(edit: Edit, order: seq<(nat, u64)>, v: Levels, ghost unused: set<u64>)
      requires manifest != null && manifest.crc == crc && Whole() && Leads(ls, name, current)
      requires LoggedOk(Logged(edit, order)) && Stamped(edit) && edit.comparator.None?
      requires FreshNumbers(Edits(ls + [Logged(edit, order)]))
      requires forall k :: 0 <= k < LEVELS ==> v[k] == Saved(current[k], Applied(UNTOUCHED, edit, k))
      requires edit.nextFileNumber == Some(marks.nextFileNumber) && edit.lastSequence == Some(marks.lastSequence)
      modifies this, manifest
      ensures manifest == old(manifest) && Whole() && ls == old(ls) + [Logged(edit, order)] && Leads(ls, name, v)
      ensures RecoverFile(crc, name, manifest.dest) == Some(Recovered(current, marks))
      ensures VersionFits(v)
      ensures current == v && issued == unused && torn == old(torn)
      ensures marks == old(marks).(logNumber := edit.logNumber.value, prevLogNumber := edit.prevLogNumber.value)
    {
      hide LogOf, Records, RecordOf, LoggedOk, FreshNumbers, Saved, Applied, VersionFits, Fragments, RecoverFile;
      LeadsSome(ls, name, current);
      RecordsMore(crc, ls, Logged(edit, order));
      LeadsFurther(ls, Logged(edit, order), name, current, v);
      hide Leads;
      manifest.AddRecord(RecordOf(Logged(edit, order)));
      ls := ls + [Logged(edit, order)];
      current := v;
      issued := unused;
      marks := marks.(logNumber := edit.logNumber.value, prevLogNumber := edit.prevLogNumber.value);
      WholeRecovers(crc, name, ls, v);
    }

    method WriteSnapshot(pointers: seq<(nat, Bytes)>)
      requires VersionFits(current) && manifest == null
      modifies this
      ensures manifest != null && fresh(manifest) && manifest.Valid() && manifest.crc == crc
      ensures ls == [Logged(SnapshotEdit(current, name, pointers), [])] && manifest.dest == LogOf(crc, Records(ls))
      ensures ls[0].edit.comparator == Some(name)
      ensures current == old(current) && marks == old(marks) && issued == old(issued) && torn == old(torn)
    {
      var l := Logged(SnapshotEdit(current, name, pointers), []);
      ls := [l];
      manifest := new Writer(crc, []);
      AppendExtends(crc, [], RecordOf(l));
      manifest.AddRecord(RecordOf(l));
    }

    /** Replays a manifest into a fresh version set; its numbers come from the counter again. */
    method Recover(file: Bytes) returns (ok: bool)
      requires Valid() && current == NO_FILES && manifest == null
      modifies this
      ensures ok <==> RecoverFile(crc, name, file).Some?
      ensures ok ==> var r := RecoverFile(crc, name, file).value;
                     && current == r.levels && marks == r.marks.(nextFileNumber := (r.marks.nextFileNumber + 1) % TWO64)
                     && (StartOk(r.levels, r.marks.nextFileNumber) && r.marks.nextFileNumber + 1 < TWO64 ==> Valid())
      ensures manifest == null
    {
      hide RecoverFile, Traced, VersionFits, StartOk;
      var r := Rebuild(file);
      if r.Some? {
        StartsAgain(r.value.levels, r.value.marks.nextFileNumber);
        issued := {};
        current := r.value.levels;
        marks := r.value.marks.(nextFileNumber := (r.value.marks.nextFileNumber + 1) % TWO64);
      }
      ok := r.Some?;
    }

    /** Reads the manifest's records and applies their edits to an empty version. */
    method Rebuild(file: Bytes) returns (r: Option<Recovered>)
      requires current == NO_FILES
      ensures r == RecoverFile(crc, name, file)
    {
      hide AllFrom, Decode, Applied, Saved, RecoverEdits;
      var records, reports := ReadLog(crc, file);
      if reports > 0 {
        return None;
      }
      var builder := new Builder(current);
      var es: seq<Edit> := [];
      var scratch := new VersionEdit();
      for i := 0 to |records|
        invariant fresh(builder) && builder.base == NO_FILES && |builder.levels| == LEVELS && fresh(scratch)
        invariant DecodeAll(records[..i]) == Some(es) && ComparatorsMatch(es, name)
        invariant forall k :: 0 <= k < LEVELS ==> builder.levels[k] == ApplyAll(UNTOUCHED, es, k)
      {
        scratch := new VersionEdit();
        var good := scratch.DecodeFrom(records[i]);
        DecodeNext(records, i);
        FreshEdit(EMPTY);
        if !good {
          return None;
        }
        var e := scratch.edit;
        if e.comparator.Some? && e.comparator.value != name {
          Mismatch(records, i, es, e, name);
          return None;
        }
        var order := Listing(e.deleted);
        DecodedInLevels(records[i], EMPTY);
        ghost var before := builder.levels;
        builder.Apply(e, order);
        forall k | 0 <= k < LEVELS
          ensures ApplyAll(UNTOUCHED, es + [e], k) == Applied(before[k], e, k)
        {
          assert (es + [e])[..|es|] == es;
        }
        es := es + [e];
      }
      assert records[..|records|] == records;
      var next := LastOf(es, (e: Edit) => e.nextFileNumber);
      var log := LastOf(es, (e: Edit) => e.logNumber);
      var last := LastOf(es, (e: Edit) => e.lastSequence);
      var prev := LastOf(es, (e: Edit) => e.prevLogNumber);
      RecoverParts(es);
      if next.None? || log.None? || last.None? {
        return None;
      }
      var v := builder.SaveTo();
      assert v == RecoverEdits(es).value.levels;
      r := Some(Recovered(v, Marks(log.value, if prev.Some? then prev.value else 0, next.value, last.value)));
    }
  }

  /** A file to which some of a record's bytes have been appended. */
  function PartOf(crc: Crc, dest: Bytes, record: Bytes, n: nat): Bytes {
    var fragments := Fragments(crc, Off(|dest|), record, true);
    dest + if n < |fragments| then fragments[..n] else fragments
  }

  lemma LogsFurther(crc: Crc, ls: seq<Logged>, l: Logged)
    ensures var dest := LogOf(crc, Records(ls));
            forall n: nat :: dest <= PartOf(crc, dest, RecordOf(l), n) <= LogOf(crc, Records(ls + [l]))
  {
    RecordsMore(crc, ls, l);
    hide LogOf, Fragments, Records, RecordOf;
  }

  /** The numbers in the manifest once the edit is logged. */
  lemma TracedLogged(adds: Levels, v: Levels, issued: set<u64>, next: nat, name: Bytes, pointers: seq<(nat, Bytes)>,
                     first: bool, ls: seq<Logged>, all: seq<Logged>, l: Logged, e: Edit, v': Levels)
    requires l.edit.added == e.added
    requires all == (if first then [Logged(SnapshotEdit(v, name, pointers), [])] else ls) + [l]
    requires adds == (if first then v else AllAdds(Edits(ls)))
    requires Traced(WithAdded(adds, e), v', issued - NumbersOf(e.added), next)
    ensures Traced(AllAdds(Edits(all)), v', issued - NumbersOf(e.added), next) && FreshNumbers(Edits(all))
  {
    hide Traced, FreshNumbers, SnapshotEdit, AddedAt;
    var before := if first then [Logged(SnapshotEdit(v, name, pointers), [])] else ls;
    SnapshotAdds(v, name, pointers);
    assert Edits(all) == Edits(before) + [l.edit];
    assert first ==> Edits(before) == [SnapshotEdit(v, name, pointers)];
    AddsSnoc(Edits(before), l.edit);
    assert WithAdded(adds, e) == WithAdded(adds, l.edit);
    TracedIsFresh(Edits(all), v', issued - NumbersOf(e.added), next);
  }

  /** The version in the manifest once the edit is logged. */
  lemma VersionLogged(v: Levels, name: Bytes, pointers: seq<(nat, Bytes)>, first: bool, ls: seq<Logged>,
                      all: seq<Logged>, l: Logged, e: Edit, v': Levels)
    requires l.edit.added == e.added && l.edit.deleted == e.deleted
    requires all == (if first then [Logged(SnapshotEdit(v, name, pointers), [])] else ls) + [l]
    requires VersionFits(v) && (!first ==> v == VersionAfter(Edits(ls))) && FreshNumbers(Edits(all))
    requires forall k :: 0 <= k < LEVELS ==> v'[k] == Saved(v[k], Applied(UNTOUCHED, e, k))
    ensures v' == VersionAfter(Edits(all)) && VersionFits(v')
  {
    hide Saved, Applied, SnapshotEdit, FreshNumbers, VersionFits, VersionAfter;
    var before := if first then [Logged(SnapshotEdit(v, name, pointers), [])] else ls;
    SnapshotRestores(v, name, pointers);
    assert first ==> Edits(before) == [SnapshotEdit(v, name, pointers)];
    assert Edits(all) == Edits(before) + [l.edit];
    forall k | 0 <= k < LEVELS
      ensures v'[k] == VersionAfter(Edits(all))[k]
    {
      VersionStep(Edits(before), l.edit, k);
      SameEffect(e, l.edit, k);
    }
    assert v' == VersionAfter(Edits(all));
    AfterFits(Edits(all));
  }

  /** All that holds of the numbers and the versions once the edit is logged. */
  lemma NextLogged(v: Levels, issued: set<u64>, next: u64, name: Bytes, pointers: seq<(nat, Bytes)>, first: bool,
                   ls: seq<Logged>, all: seq<Logged>, l: Logged, e: Edit, v': Levels)
    requires l.edit.added == e.added && l.edit.deleted == e.deleted && l.edit.nextFileNumber == Some(next)
    requires all == (if first then [Logged(SnapshotEdit(v, name, pointers), [])] else ls) + [l]
    requires VersionFits(v)
    requires (!first ==> v == VersionAfter(Edits(ls)) && forall k :: 2 <= k <= |ls| ==> StartsAt(ls, k))
    requires Traced(if first then v else AllAdds(Edits(ls)), v, issued, next) && EditOk(e, v, issued)
    requires forall k :: 0 <= k < LEVELS ==> v'[k] == Saved(v[k], Applied(UNTOUCHED, e, k))
    ensures Traced(AllAdds(Edits(all)), v', issued - NumbersOf(e.added), next) && FreshNumbers(Edits(all))
    ensures VersionFits(v')
    ensures forall k :: 2 <= k <= |all| ==> StartsAt(all, k)
  {
    hide Saved, Applied, SnapshotEdit, FreshNumbers, VersionFits, VersionAfter, Traced, EditOk, After;
    hide AllAdds, StartsAt, StartOk, WithAdded;
    var adds := if first then v else AllAdds(Edits(ls));
    SavedAfter(adds, v, issued, next, e, v');
    TracedAfter(adds, v, issued, next, e, v');
    TracedLogged(adds, v, issued, next, name, pointers, first, ls, all, l, e, v');
    VersionLogged(v, name, pointers, first, ls, all, l, e, v');
    TracedStarts(AllAdds(Edits(all)), v', issued - NumbersOf(e.added), next);
    StartsLast(all, v', next);
    forall k | 2 <= k < |all|
      ensures StartsAt(all, k)
    {
      StartsEarlier(ls, l, k);
    }
  }

  lemma DecodeNext(records: seq<Bytes>, i: nat)
    requires i < |records|
    ensures DecodeAll(records[..i + 1]) ==
            if DecodeAll(records[..i]).None? || !Decode(records[i], EMPTY).ok then None
            else Some(DecodeAll(records[..i]).value + [Decode(records[i], EMPTY).edit])
    ensures DecodeAll(records[..i + 1]).None? ==> DecodeAll(records).None?
  {
    assert records[..i + 1][..i] == records[..i];
    DecodePrefix(records, i + 1);
  }

  lemma {:induction false} DecodePrefix(records: seq<Bytes>, k: nat)
    requires k <= |records|
    ensures DecodeAll(records).Some? ==> DecodeAll(records[..k]).Some?
    ensures DecodeAll(records).Some? ==> DecodeAll(records[..k]).value <= DecodeAll(records).value
    decreases |records|
  {
    hide Decode;
    if k < |records| {
      var front := records[..|records| - 1];
      DecodePrefix(front, k);
      assert front[..k] == records[..k];
    } else {
      assert records[..k] == records;
    }
  }

  lemma Mismatch(records: seq<Bytes>, i: nat, es: seq<Edit>, e: Edit, name: Bytes)
    requires i < |records| && DecodeAll(records[..i + 1]) == Some(es + [e]) && e.comparator.Some?
    requires e.comparator.value != name
    ensures DecodeAll(records).Some? ==> !ComparatorsMatch(DecodeAll(records).value, name)
  {
    hide DecodeAll;
    DecodePrefix(records, i + 1);
    if DecodeAll(records).Some? {
      assert (es + [e])[|es|] == e;
      assert DecodeAll(records).value[|es|] == e;
    }
  }

  lemma RecoverParts(es: seq<Edit>)
    ensures var next := LastOf(es, (e: Edit) => e.nextFileNumber);
            var log := LastOf(es, (e: Edit) => e.logNumber);
            var last := LastOf(es, (e: Edit) => e.lastSequence);
            var prev := LastOf(es, (e: Edit) => e.prevLogNumber);
            && (RecoverEdits(es).Some? <==> next.Some? && log.Some? && last.Some?)
            && (RecoverEdits(es).Some? ==>
                  RecoverEdits(es).value.marks
                  == Marks(log.value, if prev.Some? then prev.value else 0, next.value, last.value))
    ensures RecoverEdits(es).Some? ==>
              forall k :: 0 <= k < LEVELS ==> RecoverEdits(es).value.levels[k] == Saved([], ApplyAll(UNTOUCHED, es, k))
  {
    hide LastOf, Saved, ApplyAll;
  }

  method Listing(s: set<(nat, u64)>) returns (order: seq<(nat, u64)>)
    ensures Lists(order, s)
  {
    order := [];
    var rest := s;
    while rest != {}
      invariant s == (set p | p in order) + rest
    {
      var p :| p in rest;
      order := order + [p];
      rest := rest - {p};
    }
  }
}
