/**
 When replaying a manifest through one builder gives what applying its edits one by one gives,
 even if file numbers come back on a level.
 */
module ReplayExact {
  import opened Keys
  import opened Coding
  import opened VersionEdits
  import opened Manifest

  /** Neither file comes before the other: an ordered set takes them for the same. */
  predicate Same(f: FileMeta, g: FileMeta) {
    !Ahead(f, g) && !Ahead(g, f)
  }

  lemma SameIs(f: FileMeta, g: FileMeta)
    ensures Same(f, g) <==>
            UserPart(f.smallest) == UserPart(g.smallest) && TrailerPart(f.smallest) == TrailerPart(g.smallest) &&
            f.number == g.number
  {
    CompareIsOrd(UserPart(f.smallest), UserPart(g.smallest));
  }

  lemma AheadOrSame(f: FileMeta, g: FileMeta, h: FileMeta)
    ensures Same(f, f) && (Same(f, g) && Same(g, h) ==> Same(f, h)) && (Same(f, g) && Ahead(g, h) ==> Ahead(f, h))
  {
    SameIs(f, f);
    SameIs(f, g);
    SameIs(g, h);
    SameIs(f, h);
  }

  /** The first of the files that are the same as it. */
  ghost predicate IsFirst(all: seq<FileMeta>, f: FileMeta) {
    exists i :: FirstAt(all, i) && all[i] == f
  }

  ghost predicate FirstAt(all: seq<FileMeta>, i: int) {
    0 <= i < |all| && forall k :: 0 <= k < i ==> !Same(all[k], all[i])
  }

  /** The last of the files with its number. */
  ghost predicate IsLast(all: seq<FileMeta>, f: FileMeta) {
    exists i :: LastAt(all, i) && all[i] == f
  }

  ghost predicate LastAt(all: seq<FileMeta>, i: int) {
    0 <= i < |all| && forall k :: i < k < |all| ==> all[k].number != all[i].number
  }

  // The builder, whatever numbers it is given

  lemma {:induction false} InsertFileIs(s: seq<FileMeta>, f: FileMeta)
    requires Ordered(s)
    ensures Ordered(InsertFile(s, f))
    ensures forall g :: g in InsertFile(s, f) <==> g in s || (g == f && forall h :: h in s ==> !Same(h, f))
    decreases |s|
  {
    if s != [] {
      hide Ahead;
      assert s == [s[0]] + s[1..];
      if Ahead(f, s[0]) {
        FrontOrdered(f, s);
        forall h | h in s
          ensures !Same(h, f)
        {
          FirstBefore(f, s, h);
        }
      } else if Ahead(s[0], f) {
        InsertFileIs(s[1..], f);
        BehindFirst(s);
        FrontOrdered(s[0], InsertFile(s[1..], f));
      } else {
        assert s[0] in s && Same(s[0], f);
      }
    }
  }

  /** After any additions the set holds, of files that are the same, the first. */
  lemma {:induction false} AddFilesFirst(st: LevelState, all: seq<FileMeta>, fs: seq<FileMeta>)
    requires Ordered(st.added) && forall f :: f in st.added <==> IsFirst(all, f)
    ensures Ordered(AddFiles(st, fs).added) && forall f :: f in AddFiles(st, fs).added <==> IsFirst(all + fs, f)
    ensures AddFiles(st, fs).deleted == st.deleted - Numbers(fs)
    decreases |fs|
  {
    if fs == [] {
      assert all + fs == all && Numbers(fs) == {};
    } else {
      hide InsertFile, Ordered, IsFirst, Same;
      var front, last := fs[..|fs| - 1], fs[|fs| - 1];
      AddFilesFirst(st, all, front);
      InsertFileIs(AddFiles(st, front).added, last);
      assert fs == front + [last] && all + fs == (all + front) + [last];
      assert Numbers(fs) == Numbers(front) + {last.number};
      forall f
        ensures IsFirst(all + fs, f)
           <==> IsFirst(all + front, f) || (f == last && forall h :: IsFirst(all + front, h) ==> !Same(h, last))
      {
        FirstSnoc(all + front, last, f);
      }
      var s := AddFiles(st, front).added;
      assert (forall h :: h in s ==> !Same(h, last)) <==> (forall h :: IsFirst(all + front, h) ==> !Same(h, last));
    }
  }

  lemma FirstSnoc(all: seq<FileMeta>, last: FileMeta, f: FileMeta)
    ensures IsFirst(all + [last], f)
       <==> IsFirst(all, f) || (f == last && forall h :: IsFirst(all, h) ==> !Same(h, last))
  {
    hide Same;
    FirstKept(all, last, f);
    if IsFirst(all + [last], f) && !IsFirst(all, f) {
      FirstNew(all, last, f);
    }
    if f == last && forall h :: IsFirst(all, h) ==> !Same(h, last) {
      LastIsFirst(all, last);
    }
  }

  lemma FirstKept(all: seq<FileMeta>, last: FileMeta, f: FileMeta)
    ensures IsFirst(all, f) ==> IsFirst(all + [last], f)
  {
    hide Same;
    if IsFirst(all, f) {
      var i :| FirstAt(all, i) && all[i] == f;
      assert FirstAt(all + [last], i);
    }
  }

  lemma FirstNew(all: seq<FileMeta>, last: FileMeta, f: FileMeta)
    requires IsFirst(all + [last], f) && !IsFirst(all, f)
    ensures f == last && forall h :: IsFirst(all, h) ==> !Same(h, last)
  {
    hide Same;
    var more := all + [last];
    var i :| FirstAt(more, i) && more[i] == f;
    assert forall k :: 0 <= k < |all| ==> all[k] == more[k];
    assert i < |all| ==> FirstAt(all, i);
    forall h | IsFirst(all, h)
      ensures !Same(h, last)
    {
      var k :| FirstAt(all, k) && all[k] == h;
      assert more[k] == h;
    }
  }

  lemma LastIsFirst(all: seq<FileMeta>, last: FileMeta)
    requires forall h :: IsFirst(all, h) ==> !Same(h, last)
    ensures IsFirst(all + [last], last)
  {
    hide Same;
    var more := all + [last];
    forall k | 0 <= k < |all|
      ensures !Same(more[k], last)
    {
      var h := Representative(all, k);
      AheadOrSame(h, all[k], last);
    }
    assert FirstAt(more, |all|);
  }

  /** The first of the files that are the same as file `k`. */
  lemma {:induction false} Representative(all: seq<FileMeta>, k: nat) returns (h: FileMeta)
    requires k < |all|
    ensures IsFirst(all, h) && Same(h, all[k])
    decreases k
  {
    hide Same;
    if j: nat :| j < k && Same(all[j], all[k]) {
      h := Representative(all, j);
      AheadOrSame(h, all[j], all[k]);
    } else {
      assert FirstAt(all, k);
      h := all[k];
      AheadOrSame(h, h, h);
    }
  }

  lemma {:induction false} BuilderHolds(es: seq<Edit>, level: nat)
    ensures var st := ApplyAll(UNTOUCHED, es, level);
            Ordered(st.added) && forall f :: f in st.added <==> IsFirst(AllAdded(es, level), f)
    decreases |es|
  {
    if es != [] {
      hide DeletedAt, AddedAt, Ordered, IsFirst, Numbers;
      var front, e := es[..|es| - 1], es[|es| - 1];
      BuilderHolds(front, level);
      var st := ApplyAll(UNTOUCHED, front, level);
      AddFilesFirst(st.(deleted := st.deleted + DeletedAt(e, level)), AllAdded(front, level), AddedAt(e.added, level));
    }
  }

  lemma DeletedStep(st: LevelState, e: Edit, level: nat)
    requires Ordered(st.added)
    ensures Applied(st, e, level).deleted == st.deleted + DeletedAt(e, level) - Numbers(AddedAt(e.added, level))
  {
    hide DeletedAt, AddedAt, Ordered, Numbers;
    DeletedAfter(st.(deleted := st.deleted + DeletedAt(e, level)), AddedAt(e.added, level));
  }

  lemma {:induction false} DeletedAfter(st: LevelState, fs: seq<FileMeta>)
    ensures AddFiles(st, fs).deleted == st.deleted - Numbers(fs)
    decreases |fs|
  {
    if fs != [] {
      var front, last := fs[..|fs| - 1], fs[|fs| - 1];
      DeletedAfter(st, front);
      assert fs == front + [last];
      assert Numbers(fs) == Numbers(front) + {last.number};
    }
  }

  // Histories that add a number only while it is not live

  /** Each edit gives out its numbers once, and none that a file of the level still has. */
  ghost predicate AddsDead(base: seq<FileMeta>, es: seq<Edit>, level: nat)
    decreases |es|
  {
    es == [] ||
    var front, fs := es[..|es| - 1], AddedAt(es[|es| - 1].added, level);
    AddsDead(base, front, level) && DistinctNumbers(fs) && Apart(History(base, front, level), fs)
  }

  /** What a level holds: of each number not deleted, the file added last, or the base file if none was added. */
  ghost predicate Holds(base: seq<FileMeta>, all: seq<FileMeta>, deleted: set<u64>, f: FileMeta) {
    f.number !in deleted && (IsLast(all, f) || (f in base && f.number !in Numbers(all)))
  }

  lemma {:induction false} HistoryHolds(base: seq<FileMeta>, es: seq<Edit>, level: nat)
    requires Ordered(base) && AddsDead(base, es, level)
    ensures Ordered(History(base, es, level))
    ensures forall f :: f in History(base, es, level)
                        <==> Holds(base, AllAdded(es, level), ApplyAll(UNTOUCHED, es, level).deleted, f)
    decreases |es|
  {
    if es == [] {
      forall f
        ensures f in base <==> Holds(base, [], {}, f)
      {
        assert Numbers([]) == {};
      }
    } else {
      hide Ordered, DeletedAt, AddedAt, Holds, DistinctNumbers, Apart;
      var front, e := es[..|es| - 1], es[|es| - 1];
      HistoryHolds(base, front, level);
      BuilderHolds(front, level);
      DeletedStep(ApplyAll(UNTOUCHED, front, level), e, level);
      HistoryNext(base, front, e, level);
    }
  }

  lemma HistoryNext(base: seq<FileMeta>, front: seq<Edit>, e: Edit, level: nat)
    requires var h, fs := History(base, front, level), AddedAt(e.added, level);
             Ordered(h) && DistinctNumbers(fs) && Apart(h, fs)
    requires forall f :: f in History(base, front, level) <==>
                         Holds(base, AllAdded(front, level), ApplyAll(UNTOUCHED, front, level).deleted, f)
    ensures var h' := Saved(History(base, front, level), Applied(UNTOUCHED, e, level));
            var gone := ApplyAll(UNTOUCHED, front, level).deleted +
                        DeletedAt(e, level) - Numbers(AddedAt(e.added, level));
            && Ordered(h')
            && forall f :: f in h' <==> Holds(base, AllAdded(front, level) + AddedAt(e.added, level), gone, f)
  {
    hide History, ApplyAll, AllAdded, AddedAt, Saved, Applied, Ordered, DeletedAt, DistinctNumbers, Apart, Holds;
    var h, fs := History(base, front, level), AddedAt(e.added, level);
    OrderedNone();
    NoneApart(fs);
    StepAdds(UNTOUCHED, e, level, []);
    assert [] + fs == fs;
    ApartSame(h, fs, Applied(UNTOUCHED, e, level).added);
    SavedIs(h, Applied(UNTOUCHED, e, level));
    forall f
      ensures Holds(base, AllAdded(front, level) + fs,
                    ApplyAll(UNTOUCHED, front, level).deleted + DeletedAt(e, level) - Numbers(fs), f)
         <==> (f in h || f in fs) && f.number !in {} + DeletedAt(e, level) - Numbers(fs)
    {
      HoldsNext(base, AllAdded(front, level), fs, ApplyAll(UNTOUCHED, front, level).deleted, DeletedAt(e, level), h, f);
    }
  }

  lemma NoneApart(fs: seq<FileMeta>)
    ensures Apart([], fs)
  {
  }

  lemma ApartSame(h: seq<FileMeta>, fs: seq<FileMeta>, gs: seq<FileMeta>)
    requires Apart(h, fs) && forall f :: f in gs <==> f in fs
    ensures Apart(h, gs)
  {
  }

  lemma HoldsNext(base: seq<FileMeta>, all: seq<FileMeta>, fs: seq<FileMeta>, gone: set<u64>, going: set<u64>,
                  h: seq<FileMeta>, f: FileMeta)
    requires DistinctNumbers(fs) && Apart(h, fs) && (f in h <==> Holds(base, all, gone, f))
    ensures Holds(base, all + fs, gone + going - Numbers(fs), f)
       <==> (f in h || f in fs) && f.number !in going - Numbers(fs)
  {
    LastAppend(all, fs, f);
    hide IsLast;
    assert f.number in Numbers(all + fs) <==> f.number in Numbers(all) || f.number in Numbers(fs) by {
      assert forall g :: g in all + fs <==> g in all || g in fs;
    }
    assert f in fs ==> f.number in Numbers(fs);
    if f.number in Numbers(fs) {
      var g :| g in fs && g.number == f.number;
      assert f !in h;
    }
  }

  lemma InTail(all: seq<FileMeta>, fs: seq<FileMeta>, i: nat)
    requires i < |all + fs|
    ensures i >= |all| ==> (all + fs)[i] in fs
  {
  }

  lemma LastAppend(all: seq<FileMeta>, fs: seq<FileMeta>, f: FileMeta)
    requires DistinctNumbers(fs)
    ensures IsLast(all + fs, f) <==> f in fs || (IsLast(all, f) && f.number !in Numbers(fs))
  {
    var more := all + fs;
    if f in fs {
      var i :| 0 <= i < |fs| && fs[i] == f;
      assert LastAt(more, |all| + i);
    }
    if IsLast(all, f) && f.number !in Numbers(fs) {
      var i :| LastAt(all, i) && all[i] == f;
      forall k | i < k < |more|
        ensures more[k].number != f.number
      {
        assert k >= |all| ==> more[k] in fs;
      }
      assert LastAt(more, i);
    }
    if IsLast(more, f) && f !in fs {
      var i :| LastAt(more, i) && more[i] == f;
      InTail(all, fs, i);
      assert LastAt(all, i) by {
        assert forall k :: i < k < |all| ==> more[k] == all[k];
      }
      forall g | g in fs
        ensures g.number != f.number
      {
        var k :| 0 <= k < |fs| && fs[k] == g;
        assert more[|all| + k] == g;
      }
    }
  }

  lemma LastUnique(all: seq<FileMeta>, f: FileMeta, g: FileMeta)
    requires IsLast(all, f) && IsLast(all, g) && f.number == g.number
    ensures f == g
  {
    var i :| LastAt(all, i) && all[i] == f;
    var j :| LastAt(all, j) && all[j] == g;
    assert i == j;
  }

  // Merging what is live

  lemma NotBefore(added: seq<FileMeta>, f: FileMeta, b: FileMeta)
    requires Ordered(added) && f in added && !Ahead(added[0], b)
    ensures !Ahead(f, b)
  {
    var i :| 0 <= i < |added| && added[i] == f;
    if i > 0 && Ahead(f, b) {
      AheadTransitive(added[0], f, b);
    }
  }

  lemma MergeBaseFirst(b: FileMeta, base: seq<FileMeta>, added: seq<FileMeta>)
    requires added != [] ==> !Ahead(added[0], b)
    ensures Merge([b] + base, added) == [b] + Merge(base, added)
  {
    hide Ahead;
    assert ([b] + base)[1..] == base;
  }

  lemma MergeAddedFirst(a: FileMeta, base: seq<FileMeta>, added: seq<FileMeta>)
    requires base != [] ==> Ahead(a, base[0])
    ensures Merge(base, [a] + added) == [a] + Merge(base, added)
  {
    hide Ahead;
    assert ([a] + added)[1..] == added;
  }

  lemma LiveCons(f: FileMeta, s: seq<FileMeta>, deleted: set<u64>)
    ensures Live([f] + s, deleted) == if f.number in deleted then Live(s, deleted) else [f] + Live(s, deleted)
  {
    assert ([f] + s)[1..] == s;
    assert [] + Live(s, deleted) == Live(s, deleted);
  }

  /** Leaving out deleted files commutes with merging. */
  lemma {:induction false} LiveMerge(base: seq<FileMeta>, added: seq<FileMeta>, deleted: set<u64>)
    requires Ordered(base) && Ordered(added)
    ensures Live(Merge(base, added), deleted) == Merge(Live(base, deleted), Live(added, deleted))
    decreases |base| + |added|
  {
    hide Ahead;
    var lb, la := Live(base, deleted), Live(added, deleted);
    LiveOrdered(base, deleted);
    LiveOrdered(added, deleted);
    if added == [] {
    } else if base != [] && !Ahead(added[0], base[0]) {
      var b := base[0];
      LiveMerge(base[1..], added, deleted);
      assert base == [b] + base[1..];
      LiveCons(b, base[1..], deleted);
      LiveCons(b, Merge(base[1..], added), deleted);
      MergeBaseFirst(b, base[1..], added);
      if b.number !in deleted {
        if la != [] {
          assert la[0] in la;
          NotBefore(added, la[0], b);
        }
        MergeBaseFirst(b, Live(base[1..], deleted), la);
      }
    } else {
      var a := added[0];
      LiveMerge(base, added[1..], deleted);
      assert added == [a] + added[1..];
      LiveCons(a, added[1..], deleted);
      LiveCons(a, Merge(base, added[1..]), deleted);
      MergeAddedFirst(a, base, added[1..]);
      if a.number !in deleted {
        if lb != [] {
          assert lb[0] in lb;
          FirstBefore(a, base, lb[0]);
        }
        MergeAddedFirst(a, lb, Live(added[1..], deleted));
      }
    }
  }

  /** Two files of one number in the two lists show up as two in the merge. */
  lemma {:induction false} MergeApart(base: seq<FileMeta>, added: seq<FileMeta>)
    requires DistinctNumbers(Merge(base, added))
    ensures Apart(base, added) && DistinctNumbers(added)
    ensures forall f :: f in Merge(base, added) <==> f in base || f in added
    decreases |base| + |added|
  {
    hide Ahead;
    if added == [] {
    } else {
      var m := Merge(base, added);
      if base != [] && !Ahead(added[0], base[0]) {
        assert m == [base[0]] + Merge(base[1..], added) && base == [base[0]] + base[1..];
        TailDistinct(base[0], Merge(base[1..], added));
        MergeApart(base[1..], added);
      } else {
        assert m == [added[0]] + Merge(base, added[1..]) && added == [added[0]] + added[1..];
        TailDistinct(added[0], Merge(base, added[1..]));
        MergeApart(base, added[1..]);
      }
    }
  }

  lemma TailDistinct(f: FileMeta, s: seq<FileMeta>)
    requires DistinctNumbers([f] + s)
    ensures DistinctNumbers(s) && forall g :: g in s ==> g.number != f.number
  {
    var t := [f] + s;
    assert forall i :: 0 <= i < |s| ==> t[i + 1] == s[i];
    assert t[0] == f;
  }

  // The exact condition

  /**
   What must hold of the numbers still live at the end: if a base file has one, no file was added
   under it; and the files added under one have the same place in the order, the first of them
   being the last.
   */
  ghost predicate Consistent(base: seq<FileMeta>, all: seq<FileMeta>, deleted: set<u64>) {
    && (forall f, g :: f in base && g in all && f.number !in deleted ==> f.number != g.number)
    && (forall f, g :: f in all && g in all && f.number == g.number && f.number !in deleted ==> Same(f, g))
    && (forall i, j :: FirstWithNumber(all, i) && LastAt(all, j) && all[i].number == all[j].number ==>
                         all[i].number in deleted || all[i] == all[j])
  }

  ghost predicate FirstWithNumber(all: seq<FileMeta>, i: int) {
    0 <= i < |all| && forall k :: 0 <= k < i ==> all[k].number != all[i].number
  }

  lemma SameNumber(f: FileMeta, g: FileMeta)
    requires Same(f, g)
    ensures f.number == g.number
  {
    SameIs(f, g);
  }

  lemma FirstWithNumberIsFirst(all: seq<FileMeta>, i: int)
    requires FirstWithNumber(all, i)
    ensures IsFirst(all, all[i])
  {
    hide Same;
    forall k | 0 <= k < i
      ensures !Same(all[k], all[i])
    {
      if Same(all[k], all[i]) {
        SameNumber(all[k], all[i]);
      }
    }
    assert FirstAt(all, i);
  }

  /** The first and the last file with a number. */
  lemma {:induction false} Earliest(all: seq<FileMeta>, k: nat) returns (i: nat)
    requires k < |all|
    ensures FirstWithNumber(all, i) && all[i].number == all[k].number
    decreases k
  {
    if j: nat :| j < k && all[j].number == all[k].number {
      i := Earliest(all, j);
    } else {
      i := k;
    }
  }

  lemma {:induction false} Latest(all: seq<FileMeta>, k: nat) returns (j: nat)
    requires k < |all|
    ensures LastAt(all, j) && all[j].number == all[k].number
    decreases |all| - k
  {
    if i: nat :| k < i < |all| && all[i].number == all[k].number {
      j := Latest(all, i);
    } else {
      j := k;
    }
  }

  /** With consistent numbers, the files of the builder that are live are those the level holds. */
  lemma ConsistentHolds(base: seq<FileMeta>, all: seq<FileMeta>, deleted: set<u64>, f: FileMeta)
    requires Consistent(base, all, deleted)
    ensures f.number !in deleted && (f in base || IsFirst(all, f)) <==> Holds(base, all, deleted, f)
  {
    hide Same, Ahead;
    if f.number !in deleted && IsFirst(all, f) {
      var i :| FirstAt(all, i) && all[i] == f;
      forall k | 0 <= k < i
        ensures all[k].number != f.number
      {
        assert all[k] in all && all[i] in all;
      }
      var j := Latest(all, i);
      assert FirstWithNumber(all, i);
      assert IsLast(all, f);
    }
    if f.number !in deleted && IsLast(all, f) {
      var j :| LastAt(all, j) && all[j] == f;
      var i := Earliest(all, j);
      FirstWithNumberIsFirst(all, i);
    }
    if f.number !in deleted && f in base {
      assert forall g :: g in all ==> g.number != f.number;
      assert f.number !in Numbers(all);
    }
  }

  lemma ConsistentApart(base: seq<FileMeta>, all: seq<FileMeta>, deleted: set<u64>, added: seq<FileMeta>)
    requires Consistent(base, all, deleted) && forall f :: f in added ==> IsFirst(all, f) && f.number !in deleted
    ensures Apart(base, added)
  {
    hide Same, Ahead;
    forall f, g | f in base && g in added
      ensures f.number != g.number
    {
      assert IsFirst(all, g);
      var i :| FirstAt(all, i) && all[i] == g;
      assert g in all;
    }
  }

  /** Replay that equals history gives each live number to one file, and that makes the numbers consistent. */
  lemma AgreedIsConsistent(base: seq<FileMeta>, all: seq<FileMeta>, deleted: set<u64>, lb: seq<FileMeta>,
                           la: seq<FileMeta>)
    requires forall f :: f in lb <==> f in base && f.number !in deleted
    requires forall f :: f in la <==> IsFirst(all, f) && f.number !in deleted
    requires Apart(lb, la) && DistinctNumbers(la) && forall f :: f in la ==> Holds(base, all, deleted, f)
    ensures Consistent(base, all, deleted)
  {
    hide Same, Ahead;
    forall f, g | f in base && g in all && f.number !in deleted
      ensures f.number != g.number
    {
      var k :| 0 <= k < |all| && all[k] == g;
      var h := Representative(all, k);
      SameNumber(h, g);
      assert f in lb;
      assert f.number == g.number ==> h in la;
    }
    forall f, g | f in all && g in all && f.number == g.number && f.number !in deleted
      ensures Same(f, g)
    {
      var k :| 0 <= k < |all| && all[k] == f;
      var l :| 0 <= l < |all| && all[l] == g;
      var h := Representative(all, k);
      var i := Representative(all, l);
      SameNumber(h, f);
      SameNumber(i, g);
      assert h in la && i in la;
      OneEach(la, h, i);
      SameSwap(h, f);
      AheadOrSame(f, h, g);
    }
    forall i, j | FirstWithNumber(all, i) && LastAt(all, j) && all[i].number == all[j].number &&
                  all[i].number !in deleted
      ensures all[i] == all[j]
    {
      FirstWithNumberIsFirst(all, i);
      assert all[i] in la && all[i] in all;
      assert all[i].number in Numbers(all);
      assert IsLast(all, all[j]);
      LastUnique(all, all[i], all[j]);
    }
  }

  lemma SameSwap(f: FileMeta, g: FileMeta)
    ensures Same(f, g) <==> Same(g, f)
  {
  }

  lemma OneEach(s: seq<FileMeta>, f: FileMeta, g: FileMeta)
    requires DistinctNumbers(s) && f in s && g in s && f.number == g.number
    ensures f == g
  {
    var i :| 0 <= i < |s| && s[i] == f;
    var j :| 0 <= j < |s| && s[j] == g;
    assert i == j;
  }

  /** A level never lists two files of one number. */
  lemma HoldsOnce(base: seq<FileMeta>, all: seq<FileMeta>, deleted: set<u64>, h: seq<FileMeta>)
    requires DistinctNumbers(base) && Ordered(h) && forall f :: f in h <==> Holds(base, all, deleted, f)
    ensures DistinctNumbers(h)
  {
    hide Ahead;
    forall i, j | 0 <= i < j < |h|
      ensures h[i].number != h[j].number
    {
      assert Ahead(h[i], h[j]) && h[i] in h && h[j] in h;
      NotItself(h[i], h[j]);
      if h[i].number == h[j].number {
        SameHolder(base, all, deleted, h[i], h[j]);
      }
    }
  }

  lemma NotItself(f: FileMeta, g: FileMeta)
    requires Ahead(f, g)
    ensures f != g
  {
  }

  lemma SameHolder(base: seq<FileMeta>, all: seq<FileMeta>, deleted: set<u64>, f: FileMeta, g: FileMeta)
    requires DistinctNumbers(base) && Holds(base, all, deleted, f) && Holds(base, all, deleted, g)
    requires f.number == g.number
    ensures f == g
  {
    LastIn(all, f);
    LastIn(all, g);
    if IsLast(all, f) && IsLast(all, g) {
      LastUnique(all, f, g);
    } else {
      OneEach(base, f, g);
    }
  }

  lemma LastIn(all: seq<FileMeta>, f: FileMeta)
    ensures IsLast(all, f) ==> f.number in Numbers(all)
  {
  }

  /**
   Exactly when replay equals history. Over every history that adds a number to a level only
   while no file there has it, one builder gives the same list as applying each edit to the
   version before it if and only if the numbers live at the end are consistent.
   */
  lemma ReplayIsHistoryExactly(base: seq<FileMeta>, es: seq<Edit>, level: nat)
    requires Ordered(base) && DistinctNumbers(base) && AddsDead(base, es, level)
    ensures Replay(base, es, level) == History(base, es, level)
       <==> Consistent(base, AllAdded(es, level), ApplyAll(UNTOUCHED, es, level).deleted)
  {
    hide Ahead, Same, ApplyAll, History, AllAdded, Ordered, Consistent, Merge, Live, Holds, DistinctNumbers;
    hide Apart, IsFirst;
    var all, st, h := AllAdded(es, level), ApplyAll(UNTOUCHED, es, level), History(base, es, level);
    var lb, la := Live(base, st.deleted), Live(st.added, st.deleted);
    HistoryHolds(base, es, level);
    BuilderHolds(es, level);
    HoldsOnce(base, all, st.deleted, h);
    LiveMerge(base, st.added, st.deleted);
    LiveOrdered(base, st.deleted);
    LiveOrdered(st.added, st.deleted);
    assert Replay(base, es, level) == Merge(lb, la);
    if Consistent(base, all, st.deleted) {
      ConsistentApart(base, all, st.deleted, la);
      ApartFewer(base, lb, la);
      MergeOrdered(lb, la);
      forall f
        ensures f in Merge(lb, la) <==> f in h
      {
        ConsistentHolds(base, all, st.deleted, f);
      }
      OrderedUnique(Merge(lb, la), h);
    }
    if Merge(lb, la) == h {
      MergeApart(lb, la);
      AgreedIsConsistent(base, all, st.deleted, lb, la);
    }
  }

  lemma ApartFewer(base: seq<FileMeta>, fewer: seq<FileMeta>, added: seq<FileMeta>)
    requires Apart(base, added) && forall f :: f in fewer ==> f in base
    ensures Apart(fewer, added)
  {
  }

  /** Numbers used once are consistent. */
  lemma OnceIsConsistent(base: seq<FileMeta>, es: seq<Edit>, level: nat)
    requires NumbersOnce(base, es, level)
    ensures Consistent(base, AllAdded(es, level), ApplyAll(UNTOUCHED, es, level).deleted)
  {
    hide AllAdded, ApplyAll, Same, Ahead;
    var all := AllAdded(es, level);
    DistinctParts(base, all);
    forall f, g | f in all && g in all && f.number == g.number
      ensures f == g && Same(f, g)
    {
      OneEach(all, f, g);
      AheadOrSame(f, f, f);
    }
  }

  /**
   The history of `REUSE` gives a number to a second file. Its numbers are not consistent, and so
   the file deleted first comes back; no history in which numbers come from a rising counter does this.
   */
  lemma ReuseIsInconsistent()
    ensures AddsDead([], REUSE, 1) && !Consistent([], AllAdded(REUSE, 1), ApplyAll(UNTOUCHED, REUSE, 1).deleted)
  {
    ReusedNumberDiffers();
    ReuseAddsDead();
    hide Replay, History, Consistent, ApplyAll, AllAdded, AddsDead;
    OrderedNone();
    assert DistinctNumbers([]);
    ReplayIsHistoryExactly([], REUSE, 1);
  }

  lemma ReuseAddsDead()
    ensures AddsDead([], REUSE, 1)
  {
    ReuseEffects();
    var one, two := REUSE[..1], REUSE[..2];
    assert two[..1] == one && one[..0] == [] && REUSE[..|REUSE| - 1] == two;
    ReuseLived();
    assert History([], [], 1) == [];
    hide History, AddedAt;
    NoneApart([FIRST]);
    NoneApart([SECOND]);
    assert AddsDead([], [], 1);
    assert AddsDead([], one, 1);
    assert AddsDead([], two, 1);
  }
}
