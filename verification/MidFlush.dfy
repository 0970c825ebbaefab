/**
 A merge whose results are installed into a version that has changed since the merge was picked:
 while it ran, memtables were flushed. The flushed files are newer than the version the merge
 reads, and below level 0 they are clear of its files; but they may lie between two of them.
 */
module MidFlush {
  import opened Keys
  import opened Reads
  import opened Drops
  import opened Versions
  import opened Selection
  import opened Compaction
  import opened Installs

  /** What is known of a file flushed to level `l` of a version that was `base` some flushes ago. */
  ghost predicate Flushed(base: Version, l: nat, g: File)
  {
    l < |base| && FileOk(g) && NewerThanVersion(g, base) &&
    (l > 0 ==> FreeUpTo(base, l, g.smallest.user, g.largest.user))
  }

  /** `v` is `base` and the files flushed since. */
  ghost predicate Grown(base: Version, v: Version)
  {
    && |v| == |base|
    && (forall l, f :: 0 <= l < |base| && f in base[l] ==> f in v[l])
    && (forall l, g :: 0 <= l < |base| && g in v[l] && g !in base[l] ==> Flushed(base, l, g))
  }

  lemma NothingFlushed(v: Version)
    ensures Grown(v, v)
  {
  }

  /** One more flush. */
  lemma FlushGrows(base: Version, v: Version, level: nat, f: File, v': Version)
    requires Grown(base, v) && level < |v| && FileOk(f) && NewerThanVersion(f, v) && FlushInstalled(v, level, f, v')
    ensures Grown(base, v')
  {
    hide FileOk, Newer, Listed, Overlaps;
    assert NewerThanVersion(f, base);
    assert level > 0 ==> FreeUpTo(base, level, f.smallest.user, f.largest.user);
    assert Flushed(base, level, f);
    hide Flushed, NewerThanVersion, FreeUpTo;
  }

  /** What a merge was picked against, its inputs and the stream that it reads. */
  ghost predicate Picked(base: Version, level: nat, in0: seq<File>, in1: seq<File>, input: seq<Entry>)
    requires level + 1 < |base|
  {
    VersionOk(base) && Selected(base, level, in0, in1) && IsInput(in0, in1, input)
  }

  ghost predicate Disjoint(g: File, o: File)
  {
    Less(g.largest, o.smallest) || Less(o.largest, g.smallest)
  }

  /** At the output level each flushed file lies before or after each output. */
  ghost predicate FlushesFit(base: Version, v: Version, level: nat, outs: seq<File>)
    requires level + 1 < |base| && |v| == |base|
  {
    forall g, o :: g in v[level + 1] && g !in base[level + 1] && o in outs ==> Disjoint(g, o)
  }

  /** A file cut from part of the stream. */
  ghost predicate CutFrom(input: seq<Entry>, o: File)
  {
    FileOk(o) && forall e :: e in o.entries ==> e in input
  }

  lemma FileEnds(o: File)
    requires FileOk(o)
    ensures o.entries != [] && o.smallest == o.entries[0].key && o.largest == o.entries[|o.entries| - 1].key
  {
  }

  /** A file flushed to the output level or below shares no user key with the outputs. */
  lemma FlushedApart(base: Version, level: nat, in0: seq<File>, in1: seq<File>, input: seq<Entry>, l: nat, g: File,
                     o: File)
    requires level + 1 < |base| && Picked(base, level, in0, in1, input) && Flushed(base, l, g) && level < l
    requires CutFrom(input, o)
    ensures Newer(o, g) && Newer(g, o) && o != g
  {
    hide VersionOk, Selected, IsInput, FileOk;
    forall a, b | a in o.entries && b in g.entries
      ensures a.key.user != b.key.user
    {
      var f, m := InputFile(base, level, in0, in1, input, a);
      assert !Overlaps(f, Some(g.smallest.user), Some(g.largest.user));
      InRange(g, b);
    }
    FileEnds(o);
    assert o.entries[0] in o.entries;
  }

  lemma FlushedNewer(base: Version, level: nat, in0: seq<File>, in1: seq<File>, input: seq<Entry>, g: File, o: File)
    requires level + 1 < |base| && Picked(base, level, in0, in1, input) && NewerThanVersion(g, base)
    requires CutFrom(input, o)
    ensures Newer(g, o)
  {
    hide VersionOk, Selected, IsInput, FileOk;
    forall a, b | a in g.entries && b in o.entries && a.key.user == b.key.user
      ensures a.key.seqno > b.key.seqno
    {
      var f, m := InputFile(base, level, in0, in1, input, b);
      assert Newer(g, f);
    }
  }

  /** One file ends before the other begins, and it is the newer one. */
  ghost predicate Beside(f: File, g: File)
  {
    (Less(f.largest, g.smallest) && Newer(f, g)) || (Less(g.largest, f.smallest) && Newer(g, f))
  }

  /** A file that was there when the merge was picked lies before or after each output. */
  lemma StayingBeside(base: Version, level: nat, in0: seq<File>, in1: seq<File>, input: seq<Entry>, g: File, o: File)
    requires level + 1 < |base| && Picked(base, level, in0, in1, input) && g in base[level + 1] && g !in in1
    requires CutFrom(input, o)
    ensures Beside(g, o)
  {
    hide VersionOk, Selected, IsInput, FileOk, Newer, Less, FileNewer, FileOlder, FileBefore, FileAfter;
    BesideStream(base, level, in0, in1, input, g);
    CutInherits(input, o, g);
  }

  /** A file of the output level that the merge does not take, and an output. */
  lemma OutputBeside(base: Version, v: Version, level: nat, in0: seq<File>, in1: seq<File>, input: seq<Entry>, g: File,
                     o: File)
    requires level + 1 < |base| && Picked(base, level, in0, in1, input) && Grown(base, v) && CutFrom(input, o)
    requires g in v[level + 1] && g !in in1
    ensures g in base[level + 1] ==> Beside(g, o)
    ensures g !in base[level + 1] ==> g != o && (Beside(g, o) <==> Disjoint(g, o))
  {
    hide Picked, CutFrom, Flushed, Less;
    if g in base[level + 1] {
      StayingBeside(base, level, in0, in1, input, g, o);
    } else {
      FlushedApart(base, level, in0, in1, input, level + 1, g, o);
    }
  }

  lemma OutputsCut(input: seq<Entry>, outs: seq<File>)
    requires AreOutputs(input, outs)
    ensures (forall o :: o in outs ==> CutFrom(input, o))
    ensures forall f, g :: f in outs && g in outs && f != g ==> Beside(f, g)
  {
    hide Newer, FileOk, Less;
    forall f, g | f in outs && g in outs && f != g
      ensures Beside(f, g)
    {
      var i :| 0 <= i < |outs| && outs[i] == f;
      var j :| 0 <= j < |outs| && outs[j] == g;
    }
  }

  lemma BesideIsOk(files: seq<File>)
    ensures DeepLevelOk(files) <==> forall f, g :: f in files && g in files && f != g ==> Beside(f, g)
  {
    hide Newer, Less;
  }

  /** The output level is in order exactly when the flushed files fit. */
  lemma InstalledLevelOk(base: Version, v: Version, level: nat, in0: seq<File>, in1: seq<File>, input: seq<Entry>,
                         outs: seq<File>, files: seq<File>)
    requires level + 1 < |base| && Picked(base, level, in0, in1, input) && Grown(base, v) && DeepLevelOk(v[level + 1])
    requires AreOutputs(input, outs) && Relisted(v[level + 1], in1, outs, files)
    ensures DeepLevelOk(files) <==> FlushesFit(base, v, level, outs)
  {
    assert PickedFrom(base[level + 1], in1);
    hide Picked, DeepLevelOk, AreOutputs, Listed, Grown, CutFrom, Beside, Disjoint;
    OutputsCut(input, outs);
    BesideIsOk(v[level + 1]);
    BesideIsOk(files);
    if FlushesFit(base, v, level, outs) {
      forall f, g | f in files && g in files && f != g
        ensures Beside(f, g)
      {
        InstalledPair(base, v, level, in0, in1, input, outs, f, g);
      }
    } else {
      var g, o :| g in v[level + 1] && g !in base[level + 1] && o in outs && !Disjoint(g, o);
      OutputBeside(base, v, level, in0, in1, input, g, o);
      assert g in files && o in files && !Beside(g, o);
    }
  }

  lemma InstalledPair(base: Version, v: Version, level: nat, in0: seq<File>, in1: seq<File>, input: seq<Entry>,
                      outs: seq<File>, f: File, g: File)
    requires level + 1 < |base| && Picked(base, level, in0, in1, input) && Grown(base, v)
    requires FlushesFit(base, v, level, outs)
    requires forall o :: o in outs ==> CutFrom(input, o)
    requires forall f, g :: f in outs && g in outs && f != g ==> Beside(f, g)
    requires forall f, g :: f in v[level + 1] && g in v[level + 1] && f != g ==> Beside(f, g)
    requires (f in v[level + 1] && f !in in1) || f in outs
    requires (g in v[level + 1] && g !in in1) || g in outs
    requires f != g
    ensures Beside(f, g)
  {
    hide Picked, CutFrom, Grown;
    if f in outs && g !in outs {
      OutputBeside(base, v, level, in0, in1, input, g, f);
    } else if f !in outs && g in outs {
      OutputBeside(base, v, level, in0, in1, input, f, g);
    }
  }

  lemma InstalledLayers(base: Version, v: Version, level: nat, in0: seq<File>, in1: seq<File>, input: seq<Entry>,
                        outs: seq<File>, v': Version, l: nat, m: nat, f: File, g: File)
    requires level + 1 < |base| && Picked(base, level, in0, in1, input) && Grown(base, v) && LayersOk(v)
    requires (forall o :: o in outs ==> CutFrom(input, o)) && MergeInstalled(v, level, in0, in1, outs, v')
    requires l < m < |v'| && f in v'[l] && g in v'[m]
    ensures Newer(f, g)
  {
    hide Picked, CutFrom, Newer, Listed, Flushed;
    if l == level + 1 && f in outs {
      assert g in v[m];
      OutputAbove(base, level, in0, in1, input, m, f, g);
    } else if m == level + 1 && g in outs {
      assert f in v[l] && !(l == level && f in in0);
      OutputBelow(base, level, in0, in1, input, l, f, g);
    } else {
      assert f in v[l] && g in v[m];
    }
  }

  lemma OutputAbove(base: Version, level: nat, in0: seq<File>, in1: seq<File>, input: seq<Entry>, m: nat, o: File,
                    g: File)
    requires level + 1 < |base| && Picked(base, level, in0, in1, input) && CutFrom(input, o)
    requires level + 1 < m < |base| && (g !in base[m] ==> Flushed(base, m, g))
    ensures Newer(o, g)
  {
    hide VersionOk, Selected, IsInput, Newer, FileOk, FileNewer, FileOlder, FileBefore, FileAfter, Flushed;
    if g in base[m] {
      BelowIsOlder(base, level, in0, in1, input, m, g);
      CutInherits(input, o, g);
    } else {
      FlushedApart(base, level, in0, in1, input, m, g, o);
    }
  }

  lemma OutputBelow(base: Version, level: nat, in0: seq<File>, in1: seq<File>, input: seq<Entry>, l: nat, f: File,
                    o: File)
    requires level + 1 < |base| && Picked(base, level, in0, in1, input) && CutFrom(input, o)
    requires l <= level && !(l == level && f in in0) && (f !in base[l] ==> Flushed(base, l, f))
    ensures Newer(f, o)
  {
    hide VersionOk, Selected, IsInput, Newer, FileOk, FileNewer, FileOlder, FileBefore, FileAfter;
    hide NewerThanVersion, FreeUpTo;
    if f in base[l] {
      AboveIsNewer(base, level, in0, in1, input, l, f);
      CutInherits(input, o, f);
    } else {
      FlushedNewer(base, level, in0, in1, input, f, o);
    }
  }

  /**
   The exact condition for a merge to keep the version invariant though memtables were flushed
   while it ran: no file flushed to the output level lies inside the range of an output.
   */
  lemma InstallKeepsVersionExactly(base: Version, v: Version, level: nat, in0: seq<File>, in1: seq<File>,
                                   input: seq<Entry>, outs: seq<File>, v': Version)
    requires level + 1 < |base| && Picked(base, level, in0, in1, input) && VersionOk(v) && Grown(base, v)
    requires AreOutputs(input, outs) && MergeInstalled(v, level, in0, in1, outs, v')
    ensures VersionOk(v') <==> FlushesFit(base, v, level, outs)
  {
    assert |v| == |base|;
    hide Picked, Newer, FileOk, BySmallest, Less, FlushesFit, Grown, AreOutputs, CutFrom;
    OutputsCut(input, outs);
    InstalledLevelOk(base, v, level, in0, in1, input, outs, v'[level + 1]);
    InstalledRest(v, level, in0, in1, input, outs, v');
    hide Listed, DeepLevelOk, MergeInstalled, FilesOk, LevelZeroOk;
    forall l, m, f, g | 0 <= l < m < |v'| && f in v'[l] && g in v'[m]
      ensures Newer(f, g)
    {
      InstalledLayers(base, v, level, in0, in1, input, outs, v', l, m, f, g);
    }
  }

  /** All of the invariant but the order of the output level and of the layers. */
  lemma InstalledRest(v: Version, level: nat, in0: seq<File>, in1: seq<File>, input: seq<Entry>, outs: seq<File>,
                      v': Version)
    requires VersionOk(v) && level + 1 < |v| && MergeInstalled(v, level, in0, in1, outs, v')
    requires forall o :: o in outs ==> CutFrom(input, o)
    ensures FilesOk(v') && LevelZeroOk(v'[0]) && |v'| == NUM_LEVELS
    ensures forall l :: 0 <= l < |v'| ==> Listed(v'[l]) && (l > 0 && l != level + 1 ==> DeepLevelOk(v'[l]))
  {
    hide Newer, Listed, FileOk, Less, LayersOk;
    forall l, f | 0 <= l < |v'| && f in v'[l]
      ensures FileOk(f)
    {
      assert f in outs || f in v[l];
    }
    forall l | 0 <= l < |v'|
      ensures Listed(v'[l]) && (l > 0 && l != level + 1 ==> DeepLevelOk(v'[l]))
    {
      if l > 0 && l != level + 1 {
        assert DeepLevelOk(v[l]);
        assert forall f :: f in v'[l] ==> f in v[l];
      }
    }
    assert forall f :: f in v'[0] ==> f in v[0];
  }

  /** A merge keeps the version invariant: nothing was flushed, so nothing lies inside an output. */
  lemma MergeKeepsVersion(v: Version, level: nat, in0: seq<File>, in1: seq<File>, input: seq<Entry>, outs: seq<File>,
                          v': Version)
    requires VersionOk(v) && level + 1 < |v| && Selected(v, level, in0, in1) && IsInput(in0, in1, input)
    requires AreOutputs(input, outs) && MergeInstalled(v, level, in0, in1, outs, v')
    ensures VersionOk(v')
  {
    NothingFlushed(v);
    hide VersionOk, Selected, IsInput, AreOutputs, MergeInstalled, Grown;
    InstallKeepsVersionExactly(v, v, level, in0, in1, input, outs, v');
  }

  /** A trivial move is a merge that rewrites nothing: one input file, none below. */
  lemma MoveKeepsVersion(v: Version, level: nat, f: File, v': Version)
    requires VersionOk(v) && level + 1 < |v| && Selected(v, level, [f], [])
    requires MergeInstalled(v, level, [f], [], [f], v')
    ensures VersionOk(v') && AllEntries(v') == AllEntries(v)
  {
    assert f in [f] && f in v[level] && FileOk(f);
    MovedFile(v, level, f);
    hide VersionOk, Selected, MergeInstalled, FileOk, IsInput, AreOutputs, AllEntries, RestOf, Newer, Merged;
    MergeKeepsVersion(v, level, [f], [], f.entries, [f], v');
    EntriesSplit(v, level, [f], [], f.entries);
    EntriesAfter(v, level, [f], [], [f], v');
  }

  /** A single file is an input of its own entries, and an output of them. */
  lemma MovedFile(v: Version, level: nat, f: File)
    requires VersionOk(v) && level + 1 < |v| && f in v[level] && FileOk(f)
    ensures IsInput([f], [], f.entries) && Concat([f]) == f.entries && AreOutputs(f.entries, [f])
    ensures PickedFrom(v[level], [f]) && PickedFrom(v[level + 1], [])
  {
    hide VersionOk;
    assert Concat([f]) == Concat([]) + f.entries;
    assert [] + f.entries == f.entries;
  }

  /** Inputs without a gap leave no place for a flushed file inside an output. */
  lemma UnsplitFits(base: Version, v: Version, level: nat, in0: seq<File>, in1: seq<File>, input: seq<Entry>,
                    outs: seq<File>)
    requires level + 1 < |base| && Picked(base, level, in0, in1, input) && Grown(base, v)
    requires AreOutputs(input, outs) && Unsplit(in0 + in1)
    ensures FlushesFit(base, v, level, outs)
  {
    hide Picked, Unsplit, AreOutputs, Flushed, CutFrom, Disjoint;
    OutputsCut(input, outs);
    forall g, o | g in v[level + 1] && g !in base[level + 1] && o in outs
      ensures Disjoint(g, o)
    {
      UnsplitFit(base, level, in0, in1, input, g, o);
    }
  }

  lemma UnsplitFit(base: Version, level: nat, in0: seq<File>, in1: seq<File>, input: seq<Entry>, g: File, o: File)
    requires level + 1 < |base| && Picked(base, level, in0, in1, input) && CutFrom(input, o)
    requires Unsplit(in0 + in1) && Flushed(base, level + 1, g)
    ensures Disjoint(g, o)
  {
    var b, e := g.smallest.user, g.largest.user;
    assert PickedFrom(base[level], in0) && PickedFrom(base[level + 1], in1);
    hide VersionOk, Selected, IsInput, FileOk;
    FileEnds(g);
    InRange(g, g.entries[0]);
    assert Avoids(in0 + in1, b, e);
    FileEnds(o);
    var f, m := InputFile(base, level, in0, in1, input, o.entries[0]);
    var f', m' := InputFile(base, level, in0, in1, input, o.entries[|o.entries| - 1]);
    assert f in in0 + in1 && f' in in0 + in1;
    assert OneSide(in0 + in1, b, e);
  }

  // What the installed version holds

  ghost function Since(base: Version, v: Version): set<Entry>
    requires |v| == |base|
  {
    set l, g, e | 0 <= l < |v| && g in v[l] && g !in base[l] && e in g.entries :: e
  }

  lemma SinceIsNewer(base: Version, v: Version)
    requires Grown(base, v)
    ensures AllEntries(v) == Since(base, v) + AllEntries(base) && NewerThan(Since(base, v), AllEntries(base))
  {
    forall e
      ensures e in AllEntries(v) <==> e in Since(base, v) || e in AllEntries(base)
    {
      if e in AllEntries(v) {
        var l, f :| 0 <= l < |v| && f in v[l] && e in f.entries;
        assert f in base[l] ==> e in AllEntries(base);
      }
      if e in AllEntries(base) {
        var l, f :| 0 <= l < |base| && f in base[l] && e in f.entries;
        assert f in v[l];
      }
    }
    forall a, b | a in Since(base, v) && b in AllEntries(base) && a.key.user == b.key.user
      ensures a.key.seqno > b.key.seqno
    {
      var l, g :| 0 <= l < |v| && g in v[l] && g !in base[l] && a in g.entries;
      var m, f :| 0 <= m < |base| && f in base[m] && b in f.entries;
      assert Flushed(base, l, g);
      assert Newer(g, f);
    }
  }

  /** After the install: what was flushed, the outputs, and what the merge did not take. */
  lemma InstalledEntries(base: Version, v: Version, level: nat, in0: seq<File>, in1: seq<File>, outs: seq<File>,
                         v': Version)
    requires Grown(base, v) && level + 1 < |base| && PickedFrom(base[level], in0) && PickedFrom(base[level + 1], in1)
    requires MergeInstalled(v, level, in0, in1, outs, v')
    ensures AllEntries(v') == Since(base, v) + (RestOf(base, level, in0, in1) + EntrySet(Concat(outs)))
  {
    hide Flushed, Listed;
    EntriesAfter(v, level, in0, in1, outs, v');
    forall e
      ensures e in RestOf(v, level, in0, in1) <==> e in Since(base, v) || e in RestOf(base, level, in0, in1)
    {
      if e in RestOf(v, level, in0, in1) {
        var l, f :| 0 <= l < |v| && f in v[l] && Stays(v, level, in0, in1, l, f) && e in f.entries;
        assert f in base[l] ==> Stays(base, level, in0, in1, l, f);
      }
      if e in RestOf(base, level, in0, in1) {
        var l, f :| 0 <= l < |base| && f in base[l] && Stays(base, level, in0, in1, l, f) && e in f.entries;
        assert Stays(v, level, in0, in1, l, f);
      }
      if e in Since(base, v) {
        var l, g :| 0 <= l < |v| && g in v[l] && g !in base[l] && e in g.entries;
        assert Stays(v, level, in0, in1, l, g);
      }
    }
  }

  /** A merge that resurrects nothing changes no read at or above the snapshot it was started with. */
  lemma InstallReads(top: set<Entry>, base: Version, v: Version, level: nat, in0: seq<File>, in1: seq<File>,
                     input: seq<Entry>, outs: seq<File>, v': Version, oldest: nat, user: Bytes, snapshot: nat)
    requires level + 1 < |base| && Picked(base, level, in0, in1, input) && Grown(base, v)
    requires Concat(outs) == Kept(input, |input|, oldest, BaseOf(base, level))
    requires MergeInstalled(v, level, in0, in1, outs, v')
    requires Unique(top + AllEntries(v)) && NewerThan(top, AllEntries(v)) && oldest <= snapshot
    requires !Resurrects(RestOf(base, level, in0, in1), EntrySet(input), oldest, BaseOf(base, level), user)
    ensures Read(top + AllEntries(v'), user, snapshot) == Read(top + AllEntries(v), user, snapshot)
  {
    var since, rest := Since(base, v), RestOf(base, level, in0, in1);
    InstallShrinks(base, v, level, in0, in1, input, outs, v', oldest);
    assert Merged(input);
    hide Picked, MergeInstalled, AllEntries, RestOf, Resurrects, Read, Unique, NewerThan, Kept, Since, Grown;
    hide Dropped, EntrySet, Merged, BaseOf;
    SinceIsNewer(base, v);
    LayeredUnique(top, since, rest + EntrySet(input), rest + EntrySet(Concat(outs)));
    ReadPreserved(rest, input, oldest, BaseOf(base, level), user, snapshot);
    LayeredReads(top, since, rest + EntrySet(input), rest + EntrySet(Concat(outs)), user, snapshot);
  }

  lemma InstallShrinks(base: Version, v: Version, level: nat, in0: seq<File>, in1: seq<File>, input: seq<Entry>,
                       outs: seq<File>, v': Version, oldest: nat)
    requires level + 1 < |base| && Picked(base, level, in0, in1, input) && Grown(base, v)
    requires Concat(outs) == Kept(input, |input|, oldest, BaseOf(base, level))
    requires MergeInstalled(v, level, in0, in1, outs, v')
    ensures AllEntries(base) == RestOf(base, level, in0, in1) + EntrySet(input)
    ensures EntrySet(Concat(outs)) <= EntrySet(input)
    ensures AllEntries(v') == Since(base, v) + (RestOf(base, level, in0, in1) + EntrySet(Concat(outs)))
    ensures AllEntries(v') <= AllEntries(v)
  {
    assert PickedFrom(base[level], in0) && PickedFrom(base[level + 1], in1);
    hide VersionOk, Selected, IsInput, MergeInstalled, AllEntries, RestOf, Kept, Since, Grown, Dropped;
    SinceIsNewer(base, v);
    InstalledEntries(base, v, level, in0, in1, outs, v');
    EntriesSplit(base, level, in0, in1, input);
    KeptMembers(input, |input|, oldest, BaseOf(base, level));
  }

  lemma LayeredUnique(top: set<Entry>, since: set<Entry>, below: set<Entry>, fewer: set<Entry>)
    requires Unique(top + (since + below)) && NewerThan(top, since + below) && NewerThan(since, below) && fewer <= below
    ensures Unique((top + since) + below) && Unique((top + since) + fewer) && Unique(below)
    ensures NewerThan(top + since, below) && NewerThan(top + since, fewer)
  {
  }

  lemma LayeredReads(top: set<Entry>, since: set<Entry>, below: set<Entry>, fewer: set<Entry>, user: Bytes,
                     snapshot: nat)
    requires Unique((top + since) + below) && Unique((top + since) + fewer)
    requires NewerThan(top + since, below) && NewerThan(top + since, fewer)
    requires Read(below, user, snapshot) == Read(fewer, user, snapshot)
    ensures Read(top + (since + fewer), user, snapshot) == Read(top + (since + below), user, snapshot)
  {
    hide Read, Unique, NewerThan;
    assert top + (since + fewer) == (top + since) + fewer && top + (since + below) == (top + since) + below;
    ReadLayers(top + since, below, user, snapshot);
    ReadLayers(top + since, fewer, user, snapshot);
  }
}
