/**
 The set of files over time: applying edits through a builder, and replaying the edits that a
 manifest records.
 */
module Manifest {
  import opened Keys
  import opened Coding
  import opened VersionEdits

  // The order of files within a level

  /** The user key and the packed trailer of an encoded internal key. */
  function UserPart(k: Bytes): Bytes {
    if |k| < 8 then [] else k[..|k| - 8]
  }

  function TrailerPart(k: Bytes): nat {
    if |k| < 8 then 0 else DecodeFixed64(k[|k| - 8..])
  }

  predicate KeyLess(a: Bytes, b: Bytes) {
    Ord(UserPart(a)) < Ord(UserPart(b)) || (UserPart(a) == UserPart(b) && TrailerPart(a) > TrailerPart(b))
  }

  /** Files ascend by smallest key, then by number. */
  predicate Ahead(f: FileMeta, g: FileMeta) {
    KeyLess(f.smallest, g.smallest) || (!KeyLess(g.smallest, f.smallest) && f.number < g.number)
  }

  lemma AheadTransitive(f: FileMeta, g: FileMeta, h: FileMeta)
    requires Ahead(f, g) && Ahead(g, h)
    ensures Ahead(f, h)
  {
  }

  lemma AheadTotal(f: FileMeta, g: FileMeta)
    requires f.number != g.number
    ensures Ahead(f, g) <==> !Ahead(g, f)
  {
  }

  ghost predicate Ordered(s: seq<FileMeta>) {
    forall i, j :: 0 <= i < j < |s| ==> Ahead(s[i], s[j])
  }

  ghost predicate DistinctNumbers(s: seq<FileMeta>) {
    forall i, j :: 0 <= i < j < |s| ==> s[i].number != s[j].number
  }

  /** A set of files has only one ascending listing. */
  lemma {:induction false} OrderedUnique(a: seq<FileMeta>, b: seq<FileMeta>)
    requires Ordered(a) && Ordered(b) && forall f :: f in a <==> f in b
    ensures a == b
    decreases |a|
  {
    hide Ahead;
    SameEmptiness(a, b);
    if a != [] {
      SameFirst(a, b);
      forall f
        ensures f in a[1..] <==> f in b[1..]
      {
        RestMembers(a, f);
        RestMembers(b, f);
      }
      OrderedUnique(a[1..], b[1..]);
      assert a == [a[0]] + a[1..] && b == [b[0]] + b[1..];
    }
  }

  lemma SameEmptiness(a: seq<FileMeta>, b: seq<FileMeta>)
    requires forall f :: f in a <==> f in b
    ensures a == [] <==> b == []
  {
    assert a != [] ==> a[0] in a;
    assert b != [] ==> b[0] in b;
  }

  lemma RestMembers(a: seq<FileMeta>, f: FileMeta)
    requires Ordered(a) && a != []
    ensures f in a[1..] <==> f in a && f != a[0]
  {
    assert a == [a[0]] + a[1..];
    if f in a[1..] {
      var i :| 0 <= i < |a[1..]| && a[1..][i] == f;
      assert Ahead(a[0], a[i + 1]);
    }
  }

  lemma SameFirst(a: seq<FileMeta>, b: seq<FileMeta>)
    requires Ordered(a) && Ordered(b) && a != [] && b != [] && forall f :: f in a <==> f in b
    ensures a[0] == b[0]
  {
    assert a[0] in b && b[0] in a;
    var i :| 0 <= i < |b| && b[i] == a[0];
    var j :| 0 <= j < |a| && a[j] == b[0];
    assert i > 0 ==> Ahead(b[0], b[i]);
    assert j > 0 ==> Ahead(a[0], a[j]);
  }

  // The builder, one level

  datatype LevelState = LevelState(deleted: set<u64>, added: seq<FileMeta>)

  const UNTOUCHED: LevelState := LevelState({}, [])

  /** Inserting into an ordered set: an equivalent element already there is kept instead. */
  function InsertFile(s: seq<FileMeta>, f: FileMeta): seq<FileMeta> {
    if s == [] then [f]
    else if Ahead(f, s[0]) then [f] + s
    else if Ahead(s[0], f) then [s[0]] + InsertFile(s[1..], f)
    else s
  }

  lemma {:induction false} InsertFileKeeps(s: seq<FileMeta>, f: FileMeta)
    requires Ordered(s) && forall g :: g in s ==> g.number != f.number
    ensures Ordered(InsertFile(s, f)) && forall g :: g in InsertFile(s, f) <==> g in s || g == f
    decreases |s|
  {
    if s != [] {
      assert s[0] in s;
      AheadTotal(f, s[0]);
      if Ahead(f, s[0]) {
        FrontOrdered(f, s);
      } else {
        InsertFileKeeps(s[1..], f);
        assert s == [s[0]] + s[1..];
        BehindFirst(s);
        FrontOrdered(s[0], InsertFile(s[1..], f));
      }
    }
  }

  lemma BehindFirst(s: seq<FileMeta>)
    requires Ordered(s) && s != []
    ensures forall g :: g in s[1..] ==> Ahead(s[0], g)
  {
  }

  lemma FrontOrdered(f: FileMeta, s: seq<FileMeta>)
    requires Ordered(s) && (s != [] ==> Ahead(f, s[0]) || forall g :: g in s ==> Ahead(f, g))
    ensures Ordered([f] + s)
  {
    var t := [f] + s;
    forall i, j | 0 <= i < j < |t|
      ensures Ahead(t[i], t[j])
    {
      if i == 0 && j > 1 && Ahead(f, s[0]) {
        AheadTransitive(f, s[0], s[j - 1]);
      }
    }
  }

  function Numbers(s: seq<FileMeta>): set<u64> {
    set f | f in s :: f.number
  }

  /** What an edit does to a level. */
  function DeletedAt(e: Edit, level: nat): set<u64> {
    set p | p in e.deleted && p.0 == level :: p.1
  }

  function AddedAt(added: seq<(nat, FileMeta)>, level: nat): seq<FileMeta> {
    if added == [] then []
    else AddedAt(added[..|added| - 1], level) + if added[|added| - 1].0 == level then [added[|added| - 1].1] else []
  }

  function AddFile(st: LevelState, f: FileMeta): LevelState {
    LevelState(st.deleted - {f.number}, InsertFile(st.added, f))
  }

  function AddFiles(st: LevelState, fs: seq<FileMeta>): LevelState {
    if fs == [] then st else AddFile(AddFiles(st, fs[..|fs| - 1]), fs[|fs| - 1])
  }

  function Applied(st: LevelState, e: Edit, level: nat): LevelState {
    AddFiles(st.(deleted := st.deleted + DeletedAt(e, level)), AddedAt(e.added, level))
  }

  function ApplyAll(st: LevelState, es: seq<Edit>, level: nat): LevelState {
    if es == [] then st else Applied(ApplyAll(st, es[..|es| - 1], level), es[|es| - 1], level)
  }

  /** Every file that the edits add to a level. */
  function AllAdded(es: seq<Edit>, level: nat): seq<FileMeta> {
    if es == [] then [] else AllAdded(es[..|es| - 1], level) + AddedAt(es[|es| - 1].added, level)
  }

  // Saving a level

  /** Merges the base files with the added files, base first among equivalent ones. */
  function Merge(base: seq<FileMeta>, added: seq<FileMeta>): seq<FileMeta>
    decreases |base| + |added|
  {
    if added == [] then base
    else if base != [] && !Ahead(added[0], base[0]) then [base[0]] + Merge(base[1..], added)
    else [added[0]] + Merge(base, added[1..])
  }

  function Live(s: seq<FileMeta>, deleted: set<u64>): seq<FileMeta> {
    if s == [] then []
    else (if s[0].number in deleted then [] else [s[0]]) + Live(s[1..], deleted)
  }

  function Saved(base: seq<FileMeta>, st: LevelState): seq<FileMeta> {
    Live(Merge(base, st.added), st.deleted)
  }

  ghost predicate Apart(a: seq<FileMeta>, b: seq<FileMeta>) {
    forall f, g :: f in a && g in b ==> f.number != g.number
  }

  lemma {:induction false} MergeOrdered(base: seq<FileMeta>, added: seq<FileMeta>)
    requires Ordered(base) && Ordered(added) && Apart(base, added)
    ensures Ordered(Merge(base, added)) && forall f :: f in Merge(base, added) <==> f in base || f in added
    decreases |base| + |added|
  {
    if added == [] {
    } else if base != [] && !Ahead(added[0], base[0]) {
      assert added[0] in added && base[0] in base;
      AheadTotal(base[0], added[0]);
      assert base == [base[0]] + base[1..];
      MergeOrdered(base[1..], added);
      MergeFront(base[0], base[1..], added);
    } else {
      assert added == [added[0]] + added[1..];
      MergeOrdered(base, added[1..]);
      MergeFront(added[0], base, added[1..]);
    }
  }

  lemma MergeFront(f: FileMeta, base: seq<FileMeta>, added: seq<FileMeta>)
    requires Ordered(Merge(base, added)) && forall g :: g in Merge(base, added) <==> g in base || g in added
    requires Ordered(base) && Ordered(added) && (base != [] ==> Ahead(f, base[0]))
    requires (added != [] ==> Ahead(f, added[0]))
    ensures Ordered([f] + Merge(base, added))
  {
    hide Merge;
    forall g | g in Merge(base, added)
      ensures Ahead(f, g)
    {
      if g in base {
        FirstBefore(f, base, g);
      } else {
        FirstBefore(f, added, g);
      }
    }
    FrontOrdered(f, Merge(base, added));
  }

  lemma FirstBefore(f: FileMeta, s: seq<FileMeta>, g: FileMeta)
    requires Ordered(s) && g in s && Ahead(f, s[0])
    ensures Ahead(f, g)
  {
    var i :| 0 <= i < |s| && s[i] == g;
    if i > 0 {
      AheadTransitive(f, s[0], s[i]);
    }
  }

  lemma {:induction false} LiveOrdered(s: seq<FileMeta>, deleted: set<u64>)
    requires Ordered(s)
    ensures Ordered(Live(s, deleted)) && forall f :: f in Live(s, deleted) <==> f in s && f.number !in deleted
    decreases |s|
  {
    if s != [] {
      assert s == [s[0]] + s[1..];
      LiveOrdered(s[1..], deleted);
      BehindFirst(s);
      if s[0].number in deleted {
        assert [] + Live(s[1..], deleted) == Live(s[1..], deleted);
      } else {
        FrontOrdered(s[0], Live(s[1..], deleted));
      }
    }
  }

  /** Saving gives the ascending listing of the files that are not deleted. */
  lemma SavedIs(base: seq<FileMeta>, st: LevelState)
    requires Ordered(base) && Ordered(st.added) && Apart(base, st.added)
    ensures Ordered(Saved(base, st))
    ensures forall f :: f in Saved(base, st) <==> (f in base || f in st.added) && f.number !in st.deleted
  {
    MergeOrdered(base, st.added);
    LiveOrdered(Merge(base, st.added), st.deleted);
  }

  // Replay and history

  /** The level after each edit is applied to the version before it. */
  function History(base: seq<FileMeta>, es: seq<Edit>, level: nat): seq<FileMeta> {
    if es == [] then base
    else Saved(History(base, es[..|es| - 1], level), Applied(UNTOUCHED, es[|es| - 1], level))
  }

  /** The level after all edits go through one builder. */
  function Replay(base: seq<FileMeta>, es: seq<Edit>, level: nat): seq<FileMeta> {
    Saved(base, ApplyAll(UNTOUCHED, es, level))
  }

  lemma {:induction false} AddFilesIs(st: LevelState, fs: seq<FileMeta>)
    requires Ordered(st.added) && DistinctNumbers(fs) && Apart(st.added, fs)
    ensures Ordered(AddFiles(st, fs).added) && forall f :: f in AddFiles(st, fs).added <==> f in st.added || f in fs
    ensures AddFiles(st, fs).deleted == st.deleted - Numbers(fs)
    decreases |fs|
  {
    if fs != [] {
      hide Ahead, InsertFile;
      var front, last := fs[..|fs| - 1], fs[|fs| - 1];
      assert fs == front + [last];
      AddFilesIs(st, front);
      InsertFileKeeps(AddFiles(st, front).added, last);
      assert Numbers(fs) == Numbers(front) + {last.number};
    } else {
      assert Numbers(fs) == {};
    }
  }

  /** No number is given to two files of the level. */
  ghost predicate NumbersOnce(base: seq<FileMeta>, es: seq<Edit>, level: nat) {
    DistinctNumbers(base + AllAdded(es, level))
  }

  lemma DistinctParts(a: seq<FileMeta>, b: seq<FileMeta>)
    requires DistinctNumbers(a + b)
    ensures DistinctNumbers(a) && DistinctNumbers(b) && Apart(a, b)
  {
    assert forall i :: 0 <= i < |a| ==> (a + b)[i] == a[i];
    assert forall i :: 0 <= i < |b| ==> (a + b)[|a| + i] == b[i];
    forall f, g | f in a && g in b
      ensures f.number != g.number
    {
      var i :| 0 <= i < |a| && a[i] == f;
      var j :| 0 <= j < |b| && b[j] == g;
      assert (a + b)[i].number != (a + b)[|a| + j].number;
    }
  }

  /** The state before and after the last of the edits. */
  lemma LastEdit(base: seq<FileMeta>, es: seq<Edit>, level: nat)
    requires es != [] && NumbersOnce(base, es, level)
    ensures var front, fs := es[..|es| - 1], AddedAt(es[|es| - 1].added, level);
            && NumbersOnce(base, front, level) && DistinctNumbers(fs) && Apart(base, fs)
            && Apart(AllAdded(front, level), fs)
            && Apart(base, AllAdded(front, level))
  {
    var front, fs := es[..|es| - 1], AddedAt(es[|es| - 1].added, level);
    var before := AllAdded(front, level);
    assert base + AllAdded(es, level) == (base + before) + fs;
    DistinctParts(base + before, fs);
    DistinctParts(base, before);
    assert forall f :: f in base ==> f in base + before;
    assert forall f :: f in before ==> f in base + before;
  }

  lemma {:induction false} BuilderIs(base: seq<FileMeta>, es: seq<Edit>, level: nat)
    requires NumbersOnce(base, es, level)
    ensures var st := ApplyAll(UNTOUCHED, es, level);
            Ordered(st.added) && forall f :: f in st.added <==> f in AllAdded(es, level)
    decreases |es|
  {
    if es != [] {
      hide DeletedAt, AddedAt, Ordered;
      LastEdit(base, es, level);
      BuilderIs(base, es[..|es| - 1], level);
      StepAdds(ApplyAll(UNTOUCHED, es[..|es| - 1], level), es[|es| - 1], level, AllAdded(es[..|es| - 1], level));
    }
  }

  lemma StepAdds(st: LevelState, e: Edit, level: nat, before: seq<FileMeta>)
    requires Ordered(st.added) && (forall f :: f in st.added <==> f in before)
    requires DistinctNumbers(AddedAt(e.added, level)) && Apart(before, AddedAt(e.added, level))
    ensures Ordered(Applied(st, e, level).added)
    ensures forall f :: f in Applied(st, e, level).added <==> f in before + AddedAt(e.added, level)
    ensures Applied(st, e, level).deleted == st.deleted + DeletedAt(e, level) - Numbers(AddedAt(e.added, level))
  {
    hide DeletedAt, AddedAt, Ordered, AddFiles, Numbers;
    AddFilesIs(st.(deleted := st.deleted + DeletedAt(e, level)), AddedAt(e.added, level));
  }

  /** A level of the history holds exactly the files that one builder would keep. */
  lemma {:induction false} HistoryIs(base: seq<FileMeta>, es: seq<Edit>, level: nat)
    requires Ordered(base) && NumbersOnce(base, es, level)
    ensures Ordered(History(base, es, level))
    ensures forall f :: f in History(base, es, level) <==>
                        (f in base || f in AllAdded(es, level)) && f.number !in ApplyAll(UNTOUCHED, es, level).deleted
    decreases |es|
  {
    if es != [] {
      hide Ordered, DeletedAt, AddedAt;
      var front, e := es[..|es| - 1], es[|es| - 1];
      LastEdit(base, es, level);
      HistoryIs(base, front, level);
      BuilderIs(base, front, level);
      HistoryStep(base, front, e, level);
    }
  }

  lemma HistoryStep(base: seq<FileMeta>, front: seq<Edit>, e: Edit, level: nat)
    requires Ordered(History(base, front, level)) && Ordered(ApplyAll(UNTOUCHED, front, level).added)
    requires forall f :: f in ApplyAll(UNTOUCHED, front, level).added <==> f in AllAdded(front, level)
    requires forall f :: f in History(base, front, level) <==>
                         (f in base || f in AllAdded(front, level)) &&
                         f.number !in ApplyAll(UNTOUCHED, front, level).deleted
    requires var fs := AddedAt(e.added, level); DistinctNumbers(fs) && Apart(base, fs) &&
                                                Apart(AllAdded(front, level), fs)
    ensures var h := Saved(History(base, front, level), Applied(UNTOUCHED, e, level));
            var st := Applied(ApplyAll(UNTOUCHED, front, level), e, level);
            && Ordered(h)
            && forall f ::
                 f in h <==> (f in base || f in AllAdded(front, level) + AddedAt(e.added, level)) &&
                             f.number !in st.deleted
  {
    hide History, ApplyAll, AllAdded, AddedAt, Saved, Applied, Ordered, DeletedAt;
    var fs, before := AddedAt(e.added, level), AllAdded(front, level);
    assert Ordered([]) by {
      OrderedNone();
    }
    StepAdds(UNTOUCHED, e, level, []);
    StepAdds(ApplyAll(UNTOUCHED, front, level), e, level, before);
    assert [] + fs == fs;
    SavedIs(History(base, front, level), Applied(UNTOUCHED, e, level));
    StepMembers(base, before, fs, ApplyAll(UNTOUCHED, front, level).deleted, DeletedAt(e, level));
  }

  lemma OrderedNone()
    ensures Ordered([])
  {
  }

  /** Deleting in one step and deleting in two agree on every file, since numbers are not reused. */
  lemma StepMembers(base: seq<FileMeta>, before: seq<FileMeta>, fs: seq<FileMeta>, gone: set<u64>, going: set<u64>)
    requires Apart(base, fs) && Apart(before, fs)
    ensures forall f :: f in base || f in before ==>
                          (f.number !in gone && f.number !in going - Numbers(fs)
                           <==> f.number !in gone + going - Numbers(fs))
    ensures forall f :: f in fs ==> f.number !in going - Numbers(fs) && f.number !in gone + going - Numbers(fs)
  {
  }

  /**
   Manifest replay equals history: when no number is reused on a level, putting all edits through
   one builder gives the same list of files as applying each edit to the version before it.
   */
  lemma ReplayIsHistory(base: seq<FileMeta>, es: seq<Edit>, level: nat)
    requires Ordered(base) && NumbersOnce(base, es, level)
    ensures Replay(base, es, level) == History(base, es, level)
  {
    hide ApplyAll, Saved, History, Ordered, AllAdded;
    HistoryIs(base, es, level);
    BuilderIs(base, es, level);
    DistinctParts(base, AllAdded(es, level));
    SavedIs(base, ApplyAll(UNTOUCHED, es, level));
    OrderedUnique(Replay(base, es, level), History(base, es, level));
  }

  const FIRST: FileMeta := FileMeta(1, 0, [], [])
  const SECOND: FileMeta := FileMeta(1, 5, [], [])

  /** Adds a file numbered 1, deletes it, adds another file numbered 1. */
  const REUSE: seq<Edit> :=
    [EMPTY.(added := [(1, FIRST)]), EMPTY.(deleted := {(1, 1)}), EMPTY.(added := [(1, SECOND)])]

  lemma ReuseEffects()
    ensures AddedAt(REUSE[0].added, 1) == [FIRST] && AddedAt(REUSE[1].added, 1) == []
    ensures AddedAt(REUSE[2].added, 1) == [SECOND]
    ensures DeletedAt(REUSE[0], 1) == {} && DeletedAt(REUSE[1], 1) == {1} && DeletedAt(REUSE[2], 1) == {}
  {
    OneAdded(FIRST);
    OneAdded(SECOND);
    hide AddedAt;
    assert REUSE[1].added == [];
    NoneAdded();
  }

  lemma OneAdded(f: FileMeta)
    ensures AddedAt([(1, f)], 1) == [f]
  {
    assert [(1, f)][..0] == [];
  }

  lemma NoneAdded()
    ensures AddedAt([], 1) == []
  {
  }

  lemma ApplyOne(st: LevelState, e: Edit, f: FileMeta)
    requires DeletedAt(e, 1) == {} && AddedAt(e.added, 1) == [f]
    ensures Applied(st, e, 1) == AddFile(st, f)
  {
    hide AddedAt, DeletedAt, AddFile;
    assert [f][..0] == [];
    assert AddFiles(st, []) == st;
    assert st.(deleted := st.deleted + {}) == st;
  }

  lemma ReuseReplayed()
    ensures Replay([], REUSE, 1) == [FIRST]
  {
    ReuseEffects();
    var e1, e2, e3 := REUSE[0], REUSE[1], REUSE[2];
    var two, one := REUSE[..2], REUSE[..1];
    assert two[..1] == one && one[..0] == [] && two[1] == e2;
    hide AddedAt, DeletedAt, Applied;
    ApplyOne(UNTOUCHED, e1, FIRST);
    assert ApplyAll(UNTOUCHED, one, 1) == LevelState({}, [FIRST]) by {
      assert ApplyAll(UNTOUCHED, [], 1) == UNTOUCHED;
    }
    assert ApplyAll(UNTOUCHED, two, 1) == LevelState({1}, [FIRST]) by {
      ApplyDeletion(LevelState({}, [FIRST]), e2);
    }
    ApplyOne(LevelState({1}, [FIRST]), e3, SECOND);
    assert ApplyAll(UNTOUCHED, REUSE, 1) == LevelState({}, [FIRST]);
    SavedOne(LevelState({}, [FIRST]), FIRST);
  }

  lemma ApplyDeletion(st: LevelState, e: Edit)
    requires DeletedAt(e, 1) == {1} && AddedAt(e.added, 1) == []
    ensures Applied(st, e, 1) == st.(deleted := st.deleted + {1})
  {
  }

  lemma SavedOne(st: LevelState, f: FileMeta)
    requires st == LevelState({}, [f])
    ensures Saved([], st) == [f]
  {
    assert [f][1..] == [];
    assert Merge([], []) == [];
    assert Merge([], [f]) == [f] + Merge([], [f][1..]) == [f];
    assert Live([], {}) == [];
    assert Live([f], {}) == [f] + Live([f][1..], {}) == [f];
  }

  lemma ReuseLived()
    ensures History([], REUSE, 1) == [SECOND] && History([], REUSE[..2], 1) == []
  {
    ReuseEffects();
    var e1, e2, e3 := REUSE[0], REUSE[1], REUSE[2];
    var two, one := REUSE[..2], REUSE[..1];
    assert two[..1] == one && one[..0] == [] && two[1] == e2;
    hide AddedAt, DeletedAt, Applied, Saved;
    ApplyOne(UNTOUCHED, e1, FIRST);
    ApplyOne(UNTOUCHED, e3, SECOND);
    ApplyDeletion(UNTOUCHED, e2);
    SavedOne(LevelState({}, [FIRST]), FIRST);
    SavedOne(LevelState({}, [SECOND]), SECOND);
    assert History([], [], 1) == [];
    assert one[|one| - 1] == e1 && one[..|one| - 1] == [];
    assert AddFile(UNTOUCHED, FIRST) == LevelState({}, [FIRST]);
    assert History([], one, 1) == Saved([], Applied(UNTOUCHED, e1, 1));
    SavedGone();
    assert two[..|two| - 1] == one;
    assert History([], two, 1) == Saved([FIRST], Applied(UNTOUCHED, e2, 1));
    assert UNTOUCHED.(deleted := {} + {1}) == LevelState({1}, []);
    assert REUSE[..|REUSE| - 1] == two;
    assert History([], REUSE, 1) == Saved([], Applied(UNTOUCHED, e3, 1));
    assert AddFile(UNTOUCHED, SECOND) == LevelState({}, [SECOND]);
  }

  lemma SavedGone()
    ensures Saved([FIRST], LevelState({1}, [])) == []
  {
    assert Live([FIRST], {1}) == [] by {
      assert [FIRST][1..] == [];
    }
  }

  /** A number that is reused breaks the equality: the deleted file comes back in place of the new one. */
  lemma ReusedNumberDiffers()
    ensures Replay([], REUSE, 1) == [FIRST] && History([], REUSE, 1) == [SECOND]
    ensures !NumbersOnce([], REUSE, 1)
  {
    hide Replay, History;
    ReuseReplayed();
    ReuseLived();
    if NumbersOnce([], REUSE, 1) {
      assert Ordered([]);
      ReplayIsHistory([], REUSE, 1);
    }
  }

  // The builder itself

  /** The first position from `b` on whose file comes after `f`. */
  function UpperBound(base: seq<FileMeta>, b: nat, f: FileMeta): (k: nat)
    requires b <= |base|
    ensures b <= k <= |base| && (forall i :: b <= i < k ==> !Ahead(f, base[i])) && (k < |base| ==> Ahead(f, base[k]))
    decreases |base| - b
  {
    if b == |base| || Ahead(f, base[b]) then b else UpperBound(base, b + 1, f)
  }

  /** Keeps a file unless it is deleted. */
  function MaybeAddFile(out: seq<FileMeta>, deleted: set<u64>, f: FileMeta): seq<FileMeta> {
    if f.number in deleted then out else out + [f]
  }

  lemma TakeBase(out: seq<FileMeta>, deleted: set<u64>, base: seq<FileMeta>, added: seq<FileMeta>)
    requires base != [] && (added != [] ==> !Ahead(added[0], base[0]))
    ensures MaybeAddFile(out, deleted, base[0]) + Live(Merge(base[1..], added), deleted)
         == out + Live(Merge(base, added), deleted)
  {
    hide Ahead;
    MergeTakesBase(base, added);
    TakeLive(out, deleted, base[0], Merge(base[1..], added));
  }

  lemma {:induction false} MergeTakesBase(base: seq<FileMeta>, added: seq<FileMeta>)
    requires base != [] && (added != [] ==> !Ahead(added[0], base[0]))
    ensures Merge(base, added) == [base[0]] + Merge(base[1..], added)
  {
  }

  lemma TakeAdded(out: seq<FileMeta>, deleted: set<u64>, base: seq<FileMeta>, added: seq<FileMeta>)
    requires added != [] && (base != [] ==> Ahead(added[0], base[0]))
    ensures MaybeAddFile(out, deleted, added[0]) + Live(Merge(base, added[1..]), deleted)
         == out + Live(Merge(base, added), deleted)
  {
    hide Ahead;
    TakeLive(out, deleted, added[0], Merge(base, added[1..]));
  }

  lemma TakeLive(out: seq<FileMeta>, deleted: set<u64>, f: FileMeta, rest: seq<FileMeta>)
    ensures MaybeAddFile(out, deleted, f) + Live(rest, deleted) == out + Live([f] + rest, deleted)
  {
    assert ([f] + rest)[1..] == rest;
    assert out + [f] + Live(rest, deleted) == out + ([f] + Live(rest, deleted));
  }

  method SaveLevel(base: seq<FileMeta>, st: LevelState) returns (out: seq<FileMeta>)
    ensures out == Saved(base, st)
  {
    hide Ahead, Merge, Live;
    out := [];
    var b := 0;
    assert base[0..] == base && st.added[0..] == st.added;
    for a := 0 to |st.added|
      invariant 0 <= b <= |base| && out + Live(Merge(base[b..], st.added[a..]), st.deleted) == Saved(base, st)
    {
      var bpos := UpperBound(base, b, st.added[a]);
      while b < bpos
        invariant b <= bpos && out + Live(Merge(base[b..], st.added[a..]), st.deleted) == Saved(base, st)
      {
        TakeBase(out, st.deleted, base[b..], st.added[a..]);
        assert base[b..][1..] == base[b + 1..];
        out := MaybeAddFile(out, st.deleted, base[b]);
        b := b + 1;
      }
      TakeAdded(out, st.deleted, base[b..], st.added[a..]);
      assert st.added[a..][1..] == st.added[a + 1..];
      out := MaybeAddFile(out, st.deleted, st.added[a]);
    }
    assert st.added[|st.added|..] == [];
    while b < |base|
      invariant b <= |base| && out + Live(Merge(base[b..], []), st.deleted) == Saved(base, st)
    {
      TakeBase(out, st.deleted, base[b..], []);
      assert base[b..][1..] == base[b + 1..];
      out := MaybeAddFile(out, st.deleted, base[b]);
      b := b + 1;
    }
    assert base[|base|..] == [];
    NothingLeft(st.deleted);
  }

  lemma NothingLeft(deleted: set<u64>)
    ensures Live(Merge([], []), deleted) == []
  {
  }

  /** The edit names only levels that exist, as every decoded edit does. */
  ghost predicate InLevels(e: Edit) {
    (forall p :: p in e.deleted ==> p.0 < LEVELS) && (forall p :: p in e.added ==> p.0 < LEVELS)
  }

  lemma {:induction false} DecodedInLevels(b: Bytes, e: Edit)
    requires InLevels(e)
    ensures InLevels(Decode(b, e).edit)
    decreases |b|
  {
    hide GetField, Get32;
    var tag := Get32(b);
    if tag.Taken? {
      var f := GetField(tag.value, tag.rest);
      if f.Taken? {
        GetFieldInLevels(tag.value, tag.rest);
        DecodedInLevels(f.rest, SetField(e, f.value));
      }
    }
  }

  lemma GetFieldInLevels(tag: nat, b: Bytes)
    ensures var f := GetField(tag, b);
            f.Taken? ==> (f.value.DeletedFile? || f.value.NewFile? ==> f.value.level < LEVELS)
  {
    hide Get64, GetSlice, Get32;
  }

  class Builder {
    const base: seq<seq<FileMeta>>
    var levels: seq<LevelState>

    constructor (base: seq<seq<FileMeta>>)
      requires |base| == LEVELS
      ensures this.base == base && levels == seq(LEVELS, _ => UNTOUCHED)
    {
      this.base := base;
      levels := seq(LEVELS, _ => UNTOUCHED);
    }

    /** Applies an edit to every level; `order` is the order in which the set of deleted files is walked. */
    method Apply(edit: Edit, order: seq<(nat, u64)>)
      requires |levels| == LEVELS && InLevels(edit) && Lists(order, edit.deleted)
      modifies this
      ensures |levels| == LEVELS && forall k :: 0 <= k < LEVELS ==> levels[k] == Applied(old(levels)[k], edit, k)
    {
      hide AddedAt, AddFiles, DeletedAt, InsertFile;
      for i := 0 to |order|
        invariant |levels| == LEVELS
        invariant forall k :: 0 <= k < LEVELS ==>
                                levels[k] == old(levels)[k].(deleted := old(levels)[k].deleted +
                                DeletedIn(order[..i], k))
      {
        assert order[i] in edit.deleted;
        var level := order[i].0;
        levels := levels[level := levels[level].(deleted := levels[level].deleted + {order[i].1})];
        DeletedMore(order, i);
      }
      AllDeleted(order, edit);
      ghost var mid := levels;
      AddedStart(mid, edit.added);
      for i := 0 to |edit.added|
        invariant |levels| == LEVELS
        invariant forall k :: 0 <= k < LEVELS ==> levels[k] == AddFiles(mid[k], AddedAt(edit.added[..i], k))
      {
        assert edit.added[i] in edit.added;
        AddedMore(mid, edit.added, i);
        var level := edit.added[i].0;
        levels := levels[level := AddFile(levels[level], edit.added[i].1)];
      }
      assert edit.added[..|edit.added|] == edit.added;
    }

    method SaveTo() returns (v: seq<seq<FileMeta>>)
      requires |base| == |levels| == LEVELS
      ensures |v| == LEVELS && forall k :: 0 <= k < LEVELS ==> v[k] == Saved(base[k], levels[k])
    {
      v := [];
      for level := 0 to LEVELS
        invariant |v| == level && forall k :: 0 <= k < level ==> v[k] == Saved(base[k], levels[k])
      {
        var files := SaveLevel(base[level], levels[level]);
        v := v + [files];
      }
    }
  }

  function DeletedIn(order: seq<(nat, u64)>, level: nat): set<u64> {
    set p | p in order && p.0 == level :: p.1
  }

  lemma DeletedMore(order: seq<(nat, u64)>, i: nat)
    requires i < |order|
    ensures forall k: nat {:trigger DeletedIn(order[..i + 1], k)} ::
              DeletedIn(order[..i + 1], k) == DeletedIn(order[..i], k) + if order[i].0 == k then {order[i].1} else {}
  {
    assert order[..i + 1] == order[..i] + [order[i]];
  }

  lemma AllDeleted(order: seq<(nat, u64)>, e: Edit)
    requires Lists(order, e.deleted)
    ensures forall k: nat {:trigger DeletedAt(e, k)} :: DeletedIn(order[..|order|], k) == DeletedAt(e, k)
  {
    assert order[..|order|] == order;
  }

  lemma AddedStart(mid: seq<LevelState>, added: seq<(nat, FileMeta)>)
    ensures forall k :: 0 <= k < |mid| ==> mid[k] == AddFiles(mid[k], AddedAt(added[..0], k))
  {
  }

  lemma AddedMore(mid: seq<LevelState>, added: seq<(nat, FileMeta)>, i: nat)
    requires i < |added|
    ensures forall k :: 0 <= k < |mid| ==>
                          AddFiles(mid[k], AddedAt(added[..i + 1], k))
                          == if added[i].0 == k
                          then AddFile(AddFiles(mid[k], AddedAt(added[..i], k)), added[i].1)
                          else AddFiles(mid[k], AddedAt(added[..i], k))
  {
    hide AddFile;
    assert added[..i + 1][..i] == added[..i];
    forall k | 0 <= k < |mid|
      ensures AddFiles(mid[k], AddedAt(added[..i + 1], k))
           == if added[i].0 == k then AddFile(AddFiles(mid[k], AddedAt(added[..i], k)), added[i].1)
              else AddFiles(mid[k], AddedAt(added[..i], k))
    {
      var before := AddedAt(added[..i], k);
      if added[i].0 == k {
        assert (before + [added[i].1])[..|before|] == before;
      } else {
        assert before + [] == before;
      }
    }
  }
}
