/**
 The iterators on top of one another. A table and a level of files are two-level iterators over one
 sorted sequence each; the memtables, the files of level 0 and the deeper levels are the children
 of a merging iterator; and the user-facing iterator over their union shows what was written.
 */
module Iteration {
  import opened Keys
  import opened Reads
  import opened Drops
  import opened Versions
  import opened Compaction
  import opened Listings
  import opened Histories
  import opened Table
  import W = TwoLevel
  import M = Merger
  import D = DBIterator
  import C = Coding
  import T = TableFiles
  import H = TableFormat
  import E = Database

  // Tables

  /** The index of a table, as the two-level iterator walks it. */
  function TableIndex(l: T.Layout): (index: seq<W.IndexEntry>)
    requires |l.index| <= |l.handles|
    ensures |index| == |l.index|
  {
    seq(|l.index|, i requires 0 <= i < |l.index| => W.IndexEntry(l.index[i], H.HandleBytes(l.handles[i])))
  }

  lemma {:induction false} FlatIsFlatten(blocks: seq<seq<Entry>>, n: nat)
    requires n <= |blocks|
    ensures W.Flat(blocks, n) == Flatten(blocks[..n])
  {
    if n > 0 {
      FlatIsFlatten(blocks, n - 1);
      assert blocks[..n][..n - 1] == blocks[..n - 1];
    }
  }

  /** The index of a built table separates its blocks, and the blocks are the entries added. */
  lemma TableSeparated(l: T.Layout)
    requires T.LayoutOk(l)
    ensures W.Separated(TableIndex(l), l.blocks) && W.Flat(l.blocks, |l.blocks|) == Flatten(l.blocks)
  {
    FlatIsFlatten(l.blocks, |l.blocks|);
    assert l.blocks[..|l.blocks|] == l.blocks;
    hide T.LayoutOk, Less, AtMost;
    T.LayoutLengths(l);
    forall i, j | 0 <= i < |l.blocks| && 0 <= j < |l.blocks[i]|
      ensures AtMost(l.blocks[i][j].key, l.index[i])
    {
      AtMostIndex(l, i, l.blocks[i][j]);
    }
    forall i, k, j | 0 <= i < k < |l.blocks| && 0 <= j < |l.blocks[k]|
      ensures Less(l.index[i], l.blocks[k][j].key)
    {
      BeyondIndex(l, i, k, l.blocks[k][j]);
    }
    forall i | 0 <= i < |l.blocks|
      ensures Sorted(l.blocks[i])
    {
      T.BlockSorted(l, i);
    }
    forall i, k | 0 <= i < k < |l.index|
      ensures Less(l.index[i], l.index[k])
    {
      T.IndexOrder(l, i, k);
    }
  }

  lemma AtMostIndex(l: T.Layout, i: nat, e: Entry)
    requires T.LayoutOk(l) && i < |l.blocks| && e in l.blocks[i]
    ensures AtMost(e.key, l.index[i])
  {
    T.BlockSorted(l, i);
    var b := l.blocks[i];
    assert AtMost(Last(b), l.index[i]) by {
      if i + 1 < |l.blocks| {
        assert Separates(Last(b), l.index[i], First(l.blocks[i + 1]));
      }
    }
    hide T.LayoutOk;
    var j :| 0 <= j < |b| && b[j] == e;
    assert j < |b| - 1 ==> Less(b[j].key, b[|b| - 1].key);
  }

  lemma BeyondIndex(l: T.Layout, i: nat, k: nat, e: Entry)
    requires T.LayoutOk(l) && i < k < |l.blocks| && e in l.blocks[k]
    ensures Less(l.index[i], e.key)
  {
    assert Separates(Last(l.blocks[k - 1]), l.index[k - 1], First(l.blocks[k]));
    T.BlockSorted(l, k);
    if i < k - 1 {
      T.IndexOrder(l, i, k - 1);
    }
    var b := l.blocks[k];
    hide T.LayoutOk;
    var j :| 0 <= j < |b| && b[j] == e;
    assert j > 0 ==> Less(b[0].key, b[j].key);
  }

  // Levels

  function Bodies(files: seq<File>): (bs: seq<seq<Entry>>)
    ensures |bs| == |files|
  {
    seq(|files|, i requires 0 <= i < |files| => files[i].entries)
  }

  /** The index of a level: the largest key of each file, with its number and size. */
  function LevelIndex(files: seq<File>): (index: seq<W.IndexEntry>)
    ensures |index| == |files|
  {
    seq(|files|, i requires 0 <= i < |files| =>
                                W.IndexEntry(files[i].largest,
                                             C.Fixed64(files[i].number % C.TWO64) + C.Fixed64(files[i].size % C.TWO64)))
  }

  lemma {:induction false} FlatIsConcat(files: seq<File>, n: nat)
    requires n <= |files|
    ensures W.Flat(Bodies(files), n) == Concat(files[..n])
  {
    if n > 0 {
      FlatIsConcat(files, n - 1);
      assert files[..n][..n - 1] == files[..n - 1];
    }
  }

  /** The files of a deeper level are separated by their largest keys. */
  lemma LevelSeparated(files: seq<File>)
    requires (forall f :: f in files ==> FileOk(f)) && Listed(files) && DeepLevelOk(files)
    ensures W.Separated(LevelIndex(files), Bodies(files)) && W.Flat(Bodies(files), |files|) == Concat(files)
  {
    hide Less, AtMost, FileOk, Listed, DeepLevelOk, C.Fixed64, Concat, Sorted, W.Flat;
    var index, bs := LevelIndex(files), Bodies(files);
    LevelFlat(files);
    forall i | 0 <= i < |bs|
      ensures Sorted(bs[i]) && forall j :: 0 <= j < |bs[i]| ==> AtMost(bs[i][j].key, index[i].key)
    {
      FileBelow(files[i]);
    }
    forall i, k | 0 <= i < k < |bs|
      ensures Less(index[i].key, index[k].key) && forall j :: 0 <= j < |bs[k]| ==> Less(index[i].key, bs[k][j].key)
    {
      LaterFile(files, i, k);
    }
    hide LevelIndex, Bodies;
  }

  lemma LevelFlat(files: seq<File>)
    ensures W.Flat(Bodies(files), |files|) == Concat(files)
  {
    FlatIsConcat(files, |files|);
    assert files[..|files|] == files;
  }

  lemma FileBelow(f: File)
    requires FileOk(f)
    ensures Sorted(f.entries) && forall j :: 0 <= j < |f.entries| ==> AtMost(f.entries[j].key, f.largest)
  {
    FileSorted(f);
    hide FileOk, AtMost;
    forall j | 0 <= j < |f.entries|
      ensures AtMost(f.entries[j].key, f.largest)
    {
      InRange(f, f.entries[j]);
    }
  }

  lemma FileSorted(f: File)
    requires FileOk(f)
    ensures Sorted(f.entries) && f.entries != [] && f.largest == f.entries[|f.entries| - 1].key
  {
  }

  lemma LaterFile(files: seq<File>, i: nat, k: nat)
    requires (forall f :: f in files ==> FileOk(f)) && Listed(files) && DeepLevelOk(files) && i < k < |files|
    ensures Less(files[i].largest, files[k].largest)
    ensures forall e :: e in files[k].entries ==> Less(files[i].largest, e.key)
  {
    Ascending(files, i, k);
    FileSorted(files[k]);
    hide Less, AtMost, FileOk, Listed, DeepLevelOk;
    forall e | e in files[k].entries
      ensures Less(files[i].largest, e.key)
    {
      InRange(files[k], e);
      LessThenAtMost(files[i].largest, files[k].smallest, e.key);
    }
    assert files[k].entries[|files[k].entries| - 1] in files[k].entries;
  }

  lemma {:induction false} LevelSorted(files: seq<File>)
    requires (forall f :: f in files ==> FileOk(f)) && Listed(files) && DeepLevelOk(files)
    ensures Sorted(Concat(files))
  {
    if files != [] {
      var n := |files| - 1;
      var front := files[..n];
      assert Concat(files) == Concat(front) + files[n].entries;
      assert forall i :: 0 <= i < n ==> front[i] == files[i];
      hide Less, FileOk, Concat, Sorted;
      FrontOk(files);
      LevelSorted(front);
      ConcatMembers(front);
      FileSorted(files[n]);
      hide Listed, DeepLevelOk;
      forall a, b | a in Concat(front) && b in files[n].entries
        ensures Less(a.key, b.key)
      {
        var f :| f in front && a in f.entries;
        var i :| 0 <= i < n && front[i] == f;
        LaterFile(files, i, n);
        InRange(f, a);
        AtMostThenLess(a.key, f.largest, b.key);
      }
      SortedJoin(Concat(front), files[n].entries);
    }
  }

  lemma FrontOk(files: seq<File>)
    requires (forall f :: f in files ==> FileOk(f)) && Listed(files) && DeepLevelOk(files) && files != []
    ensures var front := files[..|files| - 1];
            (forall f :: f in front ==> FileOk(f)) && Listed(front) && DeepLevelOk(front)
  {
    hide FileOk, Less, Newer;
    var front := files[..|files| - 1];
    assert forall f :: f in front ==> f in files;
  }

  lemma SortedJoin(a: seq<Entry>, b: seq<Entry>)
    requires Sorted(a) && Sorted(b) && forall x, y :: x in a && y in b ==> Less(x.key, y.key)
    ensures Sorted(a + b)
  {
    hide Less;
  }

  // The children of the merging iterator

  function DeepChildren(v: Version, level: nat): seq<seq<Entry>>
    decreases |v| - level
  {
    if level >= |v| then []
    else (if v[level] == [] then [] else [Concat(v[level])]) + DeepChildren(v, level + 1)
  }

  /** The memtables, each file of level 0, and each deeper level that has files. */
  function Children(s: E.State): seq<seq<Entry>>
    requires |s.version| > 0
  {
    [s.mem] + (if s.imm.Some? then [s.imm.value] else []) + Bodies(s.version[0]) + DeepChildren(s.version, 1)
  }

  /** Two groups of children without a common key. */
  lemma Joined(a: seq<seq<Entry>>, b: seq<seq<Entry>>)
    requires M.ChildrenOk(a) && M.ChildrenOk(b)
    requires forall x, y :: M.Occurs(a, x) && M.Occurs(b, y) ==> x.key != y.key
    ensures M.ChildrenOk(a + b) && forall e :: M.Occurs(a + b, e) <==> M.Occurs(a, e) || M.Occurs(b, e)
  {
    var c := a + b;
    hide Sorted;
    forall e
      ensures M.Occurs(c, e) <==> M.Occurs(a, e) || M.Occurs(b, e)
    {
      if i :| 0 <= i < |a| && e in a[i] {
        assert e in c[i];
      }
      if i :| 0 <= i < |b| && e in b[i] {
        assert e in c[|a| + i];
      }
    }
    forall i, j, x: Entry, y: Entry | 0 <= i < j < |c| && x in c[i] && y in c[j]
      ensures x.key != y.key
    {
      if i < |a| <= j {
        assert M.Occurs(a, x) && y in b[j - |a|] && M.Occurs(b, y);
      }
    }
  }

  lemma One(es: seq<Entry>)
    requires Sorted(es)
    ensures M.ChildrenOk([es]) && forall e :: M.Occurs([es], e) <==> e in es
  {
    forall e | e in es
      ensures M.Occurs([es], e)
    {
      assert e in [es][0];
    }
  }

  ghost predicate InLevels(v: Version, level: nat, e: Entry)
  {
    exists l, f :: level <= l < |v| && f in v[l] && e in f.entries
  }

  lemma {:induction false} DeepOk(v: Version, level: nat)
    requires VersionOk(v) && 1 <= level
    ensures M.ChildrenOk(DeepChildren(v, level))
    ensures forall e :: M.Occurs(DeepChildren(v, level), e) <==> InLevels(v, level, e)
    decreases |v| - level
  {
    hide FileOk, Newer, Listed, DeepLevelOk, LevelZeroOk, Sorted, M.ChildrenOk;
    if level >= |v| {
      NoChildren();
    } else {
      DeepOk(v, level + 1);
      var here := if v[level] == [] then [] else [Concat(v[level])];
      HereOk(v, level);
      hide VersionOk;
      forall x, y | M.Occurs(here, x) && M.Occurs(DeepChildren(v, level + 1), y)
        ensures x.key != y.key
      {
        DeeperApart(v, level, x, y);
      }
      Joined(here, DeepChildren(v, level + 1));
      forall e
        ensures InLevels(v, level, e) <==> (exists f :: f in v[level] && e in f.entries) || InLevels(v, level + 1, e)
      {
        SplitLevel(v, level, e);
      }
    }
  }

  lemma NoChildren()
    ensures M.ChildrenOk([])
  {
  }

  lemma SplitLevel(v: Version, level: nat, e: Entry)
    requires level < |v|
    ensures InLevels(v, level, e) <==> (exists f :: f in v[level] && e in f.entries) || InLevels(v, level + 1, e)
  {
    if InLevels(v, level, e) {
      var l, f :| level <= l < |v| && f in v[l] && e in f.entries;
      assert l == level || level + 1 <= l;
    }
  }

  lemma DeeperApart(v: Version, level: nat, x: Entry, y: Entry)
    requires VersionOk(v) && level < |v| && (exists f :: f in v[level] && x in f.entries) && InLevels(v, level + 1, y)
    ensures x.key != y.key
  {
    hide FileOk, Listed, DeepLevelOk, LevelZeroOk;
    var f :| f in v[level] && x in f.entries;
    var l, g :| level + 1 <= l < |v| && g in v[l] && y in g.entries;
    assert Newer(f, g);
  }

  lemma HereOk(v: Version, level: nat)
    requires VersionOk(v) && 1 <= level < |v|
    ensures var here := if v[level] == [] then [] else [Concat(v[level])];
            M.ChildrenOk(here) && forall e :: M.Occurs(here, e) <==> exists f :: f in v[level] && e in f.entries
  {
    assert FilesOk(v) && Listed(v[level]) && DeepLevelOk(v[level]);
    hide VersionOk, FileOk, Listed, DeepLevelOk, Concat, Sorted, M.ChildrenOk;
    ConcatMembers(v[level]);
    if v[level] == [] {
      NoChildren();
    } else {
      LevelSorted(v[level]);
      One(Concat(v[level]));
    }
  }

  lemma ZeroOk(files: seq<File>)
    requires (forall f :: f in files ==> FileOk(f)) && LevelZeroOk(files) && Listed(files)
    ensures M.ChildrenOk(Bodies(files))
    ensures forall e :: M.Occurs(Bodies(files), e) <==> exists f :: f in files && e in f.entries
  {
    hide FileOk;
    forall i | 0 <= i < |files|
      ensures Sorted(Bodies(files)[i])
    {
      FileSorted(files[i]);
    }
    forall i, j, a, b | 0 <= i < j < |files| && a in files[i].entries && b in files[j].entries
      ensures a.key != b.key
    {
      assert BySmallest(files[i], files[j]) && files[i] in files && files[j] in files && files[i] != files[j];
      assert Newer(files[i], files[j]) || Newer(files[j], files[i]);
    }
    forall e
      ensures M.Occurs(Bodies(files), e) <==> exists f :: f in files && e in f.entries
    {
      if f :| f in files && e in f.entries {
        var i :| 0 <= i < |files| && files[i] == f;
        assert e in Bodies(files)[i];
      }
    }
  }

  lemma NewerApart(s: set<Entry>, t: set<Entry>)
    requires NewerThan(s, t)
    ensures forall x, y :: x in s && y in t ==> x.key != y.key
  {
  }

  /** The version's children hold its entries. */
  lemma VersionChildren(v: Version)
    requires VersionOk(v)
    ensures M.ChildrenOk(Bodies(v[0]) + DeepChildren(v, 1))
    ensures forall e :: M.Occurs(Bodies(v[0]) + DeepChildren(v, 1), e) <==> e in AllEntries(v)
  {
    assert FilesOk(v) && Listed(v[0]) && LevelZeroOk(v[0]);
    hide FileOk, Newer, Listed, DeepLevelOk, LevelZeroOk, M.ChildrenOk, VersionOk, Bodies, DeepChildren, M.Occurs;
    ZeroOk(v[0]);
    DeepOk(v, 1);
    forall x, y | M.Occurs(Bodies(v[0]), x) && M.Occurs(DeepChildren(v, 1), y)
      ensures x.key != y.key
    {
      DeeperApart(v, 0, x, y);
    }
    Joined(Bodies(v[0]), DeepChildren(v, 1));
    forall e
      ensures e in AllEntries(v) <==> (exists f :: f in v[0] && e in f.entries) || InLevels(v, 1, e)
    {
      SplitLevel(v, 0, e);
      assert e in AllEntries(v) <==> InLevels(v, 0, e);
    }
  }

  /** The children of the merging iterator hold what the engine stores, each entry in one of them. */
  lemma ChildrenHold(s: E.State)
    requires E.Structure(s)
    ensures |s.version| > 0 && M.ChildrenOk(Children(s))
    ensures forall e :: M.Occurs(Children(s), e) <==> e in E.Stored(s)
  {
    hide VersionOk, E.UpTo, Unique, E.JobOk, AllEntries, M.ChildrenOk, M.Occurs, Bodies, DeepChildren, NewerThan;
    hide Sorted;
    assert |s.version| > 0 by {
      VersionLength(s.version);
    }
    var rest := Bodies(s.version[0]) + DeepChildren(s.version, 1);
    VersionChildren(s.version);
    One(s.mem);
    NewerApart(EntrySet(s.mem), AllEntries(s.version));
    NewerApart(E.ImmSet(s), AllEntries(s.version));
    NewerApart(EntrySet(s.mem), E.ImmSet(s));
    if s.imm.Some? {
      One(s.imm.value);
      Joined([s.imm.value], rest);
      Joined([s.mem], [s.imm.value] + rest);
      assert Children(s) == [s.mem] + ([s.imm.value] + rest);
    } else {
      Joined([s.mem], rest);
      assert Children(s) == [s.mem] + rest;
    }
  }

  lemma VersionLength(v: Version)
    requires VersionOk(v)
    ensures |v| == NUM_LEVELS
  {
  }

  // The user-facing iterator

  /** The sorted union that the merging iterator walks. */
  ghost predicate Walks(es: seq<Entry>, s: E.State)
    requires |s.version| > 0
  {
    Merged(es) && forall e :: e in es <==> M.Occurs(Children(s), e)
  }

  lemma WalkExists(s: E.State) returns (es: seq<Entry>)
    requires E.Structure(s)
    ensures |s.version| > 0 && Walks(es, s)
  {
    E.StoredUnique(s);
    ChildrenHold(s);
    hide E.Structure, E.Stored, M.Occurs, Children, Unique, Merged;
    es := Sort(E.Stored(s));
    assert forall e :: e in EntrySet(es) <==> e in es;
  }

  /**
   Over every run whose merges are safe: an iterator over the children shows a key at a readable
   snapshot `n` exactly when the first `n` operations leave it a value, and shows that value.
   */
  lemma ShowsHistory(states: seq<E.State>, actions: seq<E.Action>, n: nat, es: seq<Entry>, user: Bytes, snapshot: nat)
    requires E.IsRun(states, actions) && n < |states|
    requires forall i :: 0 <= i < n ==> E.Fits(states[i], actions[i]) && E.Safe(states[i], actions[i])
    requires E.Readable(states[n], snapshot) && |states[n].version| > 0 && Walks(es, states[n])
    ensures var value := ValueAfter(Upto(OpsIn(actions[..n]), snapshot), user);
            && ((exists i :: D.Yields(es, snapshot, i) && es[i].key.user == user) <==> value.Some?)
            && forall i :: D.Yields(es, snapshot, i) && es[i].key.user == user ==> value == Some(es[i].value)
  {
    assert n <= |actions|;
    hide E.Next, E.Init, E.Fits, E.Safe, E.Structure, E.Stored, Children, M.Occurs, D.Yields, Read, E.Readable, Merged;
    hide ValueAfter, Upto, OpsIn;
    E.RunKeepsStructure(states, actions, n);
    RunReadsOperations(states, actions, n, user, snapshot);
    ChildrenHold(states[n]);
    assert EntrySet(es) == E.Stored(states[n]);
    D.YieldsAreReads(es, snapshot, user);
  }

  /** One step of the merging iterator is one step along the sequence that the user-facing iterator walks. */
  lemma StepsAgree(s: E.State, es: seq<Entry>, i: nat, e: Entry)
    requires E.Structure(s) && |s.version| > 0 && Walks(es, s) && i < |es|
    ensures M.NextInUnion(Children(s), es[i].key, e) <==> i + 1 < |es| && e == es[i + 1]
    ensures M.PrevInUnion(Children(s), es[i].key, e) <==> i > 0 && e == es[i - 1]
  {
    hide E.Structure, Children, M.Occurs;
    M.UnionNeighbours(Children(s), es, i, e);
    if i + 1 < |es| && e == es[i + 1] {
      NextIs(Children(s), es, i);
    }
    if i > 0 && e == es[i - 1] {
      PrevIs(Children(s), es, i);
    }
  }

  lemma NextIs(children: seq<seq<Entry>>, es: seq<Entry>, i: nat)
    requires Sorted(es) && (forall e :: e in es <==> M.Occurs(children, e)) && i + 1 < |es|
    ensures M.NextInUnion(children, es[i].key, es[i + 1])
  {
    hide M.Occurs, Less, Sorted;
    M.SortedIndex(es, i, i + 1);
    assert es[i + 1] in es;
    forall o | M.Occurs(children, o) && Less(es[i].key, o.key)
      ensures AtMost(es[i + 1].key, o.key)
    {
      var j :| 0 <= j < |es| && es[j] == o;
      M.SortedIndex(es, i, j);
      M.SortedIndex(es, j, i + 1);
    }
  }

  lemma PrevIs(children: seq<seq<Entry>>, es: seq<Entry>, i: nat)
    requires Sorted(es) && (forall e :: e in es <==> M.Occurs(children, e)) && 0 < i < |es|
    ensures M.PrevInUnion(children, es[i].key, es[i - 1])
  {
    hide M.Occurs, Less, Sorted;
    M.SortedIndex(es, i - 1, i);
    assert es[i - 1] in es;
    forall o | M.Occurs(children, o) && Less(o.key, es[i].key)
      ensures AtMost(o.key, es[i - 1].key)
    {
      var j :| 0 <= j < |es| && es[j] == o;
      M.SortedIndex(es, j, i);
      M.SortedIndex(es, i - 1, j);
    }
  }
}
