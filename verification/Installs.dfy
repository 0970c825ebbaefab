/**
 The three ways a version changes: a flushed memtable file is added, a file moves one level down,
 or a merge replaces its inputs by its outputs. Each keeps the version invariant.
 */
module Installs {
  import opened Keys
  import opened Reads
  import opened Drops
  import opened Versions
  import opened Selection
  import opened Compaction

  /** `files` is the level `was` without `gone` and with `added`, listed in order. */
  ghost predicate Relisted(was: seq<File>, gone: seq<File>, added: seq<File>, files: seq<File>)
  {
    Listed(files) && forall f :: f in files <==> (f in was && f !in gone) || f in added
  }

  /** Whether some file of a level meets a user key range, by binary search below level 0. */
  method SomeFileOverlapsRange(disjointSorted: bool, files: seq<File>, smallest: Option<Bytes>, largest: Option<Bytes>)
    returns (r: bool)
    requires disjointSorted ==> Ascends(files) && forall f :: f in files ==> f.largest.seqno <= MAX_SEQUENCE
    ensures r == exists f :: f in files && Overlaps(f, smallest, largest)
  {
    if !disjointSorted {
      for i := 0 to |files|
        invariant forall j :: 0 <= j < i ==> !Overlaps(files[j], smallest, largest)
      {
        if Overlaps(files[i], smallest, largest) {
          return true;
        }
      }
      return false;
    }
    var index := 0;
    if smallest.Some? {
      index := FindFile(files, LookupKey(smallest.value, MAX_SEQUENCE));
    }
    OnlyOneToCheck(files, index, smallest, largest);
    if index >= |files| {
      return false;
    }
    r := largest.None? || Ord(largest.value) >= Ord(files[index].smallest.user);
  }

  /** The files before `index` end before the range; if the next one begins after it, so do all later ones. */
  lemma OnlyOneToCheck(files: seq<File>, index: nat, smallest: Option<Bytes>, largest: Option<Bytes>)
    requires Ascends(files) && index <= |files| && forall f :: f in files ==> f.largest.seqno <= MAX_SEQUENCE
    requires smallest.None? ==> index == 0
    requires smallest.Some? ==> forall i :: 0 <= i < index ==>
                                              Less(files[i].largest, LookupKey(smallest.value, MAX_SEQUENCE))
    requires smallest.Some? ==> forall i :: index <= i < |files| ==>
                                              AtMost(LookupKey(smallest.value, MAX_SEQUENCE), files[i].largest)
    ensures (exists f :: f in files && Overlaps(f, smallest, largest))
       <==> index < |files| && (largest.None? || Ord(largest.value) >= Ord(files[index].smallest.user))
  {
    forall i | 0 <= i < index
      ensures !Overlaps(files[i], smallest, largest)
    {
      assert files[i] in files;
    }
    if index < |files| {
      forall i | index < i < |files|
        ensures Ord(files[index].smallest.user) <= Ord(files[i].smallest.user)
      {
        assert files[index] in files;
        InRange(files[index], files[index].entries[0]);
        assert Less(files[index].largest, files[i].smallest);
      }
      assert files[index] in files;
    }
  }

  ghost predicate SequencesInRange(v: Version)
  {
    forall e :: e in AllEntries(v) ==> e.key.seqno <= MAX_SEQUENCE
  }

  /** A level is free for a new file: no file there or above meets its user key range. */
  ghost predicate FreeUpTo(v: Version, level: nat, smallest: Bytes, largest: Bytes)
    requires level < |v|
  {
    forall l, f :: 0 <= l <= level && f in v[l] ==> !Overlaps(f, Some(smallest), Some(largest))
  }

  const MAX_MEM_COMPACT_LEVEL: nat := 2

  /**
   A new file at `level` may go one level further: that level is free too, and the one after it does not
   overlap too much.
   */
  ghost predicate MayPush(v: Version, level: nat, smallest: Bytes, largest: Bytes, maxFileSize: nat)
    requires level + 2 < |v|
  {
    FreeUpTo(v, level + 1, smallest, largest) &&
    TotalFileSize(Overlapping(v[level + 2], Some(smallest), Some(largest))) <= 10 * maxFileSize
  }

  method OverlapInLevel(v: Version, l: nat, smallest: Bytes, largest: Bytes) returns (r: bool)
    requires VersionOk(v) && SequencesInRange(v) && l < |v|
    ensures r == exists f :: f in v[l] && Overlaps(f, Some(smallest), Some(largest))
  {
    if l > 0 {
      DeepLevelAscends(v, l);
      forall f | f in v[l]
        ensures f.largest.seqno <= MAX_SEQUENCE
      {
        assert FileOk(f);
        var last := f.entries[|f.entries| - 1];
        assert last in f.entries && last in AllEntries(v);
      }
    }
    r := SomeFileOverlapsRange(l > 0, v[l], Some(smallest), Some(largest));
  }

  /** The level a flushed memtable goes to: as deep as level 2 while nothing on the way overlaps it. */
  method PickLevelForMemTableOutput(v: Version, smallest: Bytes, largest: Bytes, maxFileSize: nat) returns (level: nat)
    requires VersionOk(v) && SequencesInRange(v)
    ensures level <= MAX_MEM_COMPACT_LEVEL
    ensures level > 0 ==> FreeUpTo(v, level, smallest, largest)
    ensures forall l :: 0 <= l < level ==> MayPush(v, l, smallest, largest, maxFileSize)
    ensures level < MAX_MEM_COMPACT_LEVEL ==> !MayPush(v, level, smallest, largest, maxFileSize)
  {
    hide VersionOk, SequencesInRange, FreeUpTo, MayPush, Overlaps;
    level := 0;
    SevenLevels(v);
    var overlap := OverlapInLevel(v, 0, smallest, largest);
    FreeAbove(v, 0, smallest, largest);
    if overlap {
      TakenAbove(v, 0, smallest, largest, maxFileSize);
    } else {
      while level < MAX_MEM_COMPACT_LEVEL
        invariant level <= MAX_MEM_COMPACT_LEVEL && FreeUpTo(v, level, smallest, largest)
        invariant forall l :: 0 <= l < level ==> MayPush(v, l, smallest, largest, maxFileSize)
      {
        overlap := OverlapInLevel(v, level + 1, smallest, largest);
        if overlap {
          TakenAbove(v, level, smallest, largest, maxFileSize);
          break;
        }
        FreeAbove(v, level + 1, smallest, largest);
        var grandparents, b, e := GetOverlappingInputs(v[level + 2], level + 2, Some(smallest), Some(largest));
        PushIf(v, level, smallest, largest, maxFileSize);
        if TotalFileSize(grandparents) > 10 * maxFileSize {
          break;
        }
        level := level + 1;
      }
    }
  }

  lemma SevenLevels(v: Version)
    requires VersionOk(v)
    ensures |v| == 7
  {
  }

  lemma FreeAbove(v: Version, level: nat, smallest: Bytes, largest: Bytes)
    requires level < |v| && (level > 0 ==> FreeUpTo(v, level - 1, smallest, largest))
    ensures !(exists f :: f in v[level] && Overlaps(f, Some(smallest), Some(largest))) ==>
              FreeUpTo(v, level, smallest, largest)
  {
    hide Overlaps;
  }

  lemma TakenAbove(v: Version, level: nat, smallest: Bytes, largest: Bytes, maxFileSize: nat)
    requires level + 2 < |v|
    requires (exists f :: f in v[level] && Overlaps(f, Some(smallest), Some(largest)))
             || (exists f :: f in v[level + 1] && Overlaps(f, Some(smallest), Some(largest)))
    ensures !MayPush(v, level, smallest, largest, maxFileSize)
  {
    hide Overlaps, TotalFileSize;
  }

  lemma PushIf(v: Version, level: nat, smallest: Bytes, largest: Bytes, maxFileSize: nat)
    requires level + 2 < |v| && FreeUpTo(v, level + 1, smallest, largest)
    ensures MayPush(v, level, smallest, largest, maxFileSize)
       <==> TotalFileSize(Overlapping(v[level + 2], Some(smallest), Some(largest))) <= 10 * maxFileSize
  {
    hide FreeUpTo, TotalFileSize;
  }

  /** The files of a version that a compaction does not take. */
  ghost predicate Stays(v: Version, level: nat, in0: seq<File>, in1: seq<File>, l: nat, f: File)
  {
    l < |v| && f in v[l] && !(l == level && f in in0) && !(l == level + 1 && f in in1)
  }

  ghost function RestOf(v: Version, level: nat, in0: seq<File>, in1: seq<File>): set<Entry>
  {
    set l, f, e | 0 <= l < |v| && f in v[l] && Stays(v, level, in0, in1, l, f) && e in f.entries :: e
  }

  /** The stream a compaction reads: all entries of its inputs, merged. */
  ghost predicate IsInput(in0: seq<File>, in1: seq<File>, input: seq<Entry>)
  {
    Merged(input) && forall e :: e in input <==> exists f :: (f in in0 || f in in1) && e in f.entries
  }

  /** Every entry of `f` is newer than every entry of `es` with the same user key. */
  ghost predicate FileNewer(f: File, es: seq<Entry>)
  {
    forall a, b :: a in f.entries && b in es && a.key.user == b.key.user ==> a.key.seqno > b.key.seqno
  }

  ghost predicate FileOlder(f: File, es: seq<Entry>)
  {
    forall a, b :: a in f.entries && b in es && a.key.user == b.key.user ==> a.key.seqno < b.key.seqno
  }

  ghost predicate FileBefore(f: File, es: seq<Entry>)
  {
    forall b :: b in es ==> Less(f.largest, b.key)
  }

  ghost predicate FileAfter(f: File, es: seq<Entry>)
  {
    forall b :: b in es ==> Less(b.key, f.smallest)
  }

  lemma InputFile(v: Version, level: nat, in0: seq<File>, in1: seq<File>, input: seq<Entry>, b: Entry)
    returns (f: File, l: nat)
    requires VersionOk(v) && level + 1 < |v| && Selected(v, level, in0, in1) && IsInput(in0, in1, input) && b in input
    ensures b in f.entries && FileOk(f) && l < |v| && f in v[l] && Covers(f, b.key.user)
    ensures (l == level && f in in0) || (l == level + 1 && f in in1)
  {
    f :| (f in in0 || f in in1) && b in f.entries;
    l := if f in in0 then level else level + 1;
    InRange(f, b);
  }

  /** Files above the compaction, and those left behind in its level, are newer than the stream. */
  lemma AboveIsNewer(v: Version, level: nat, in0: seq<File>, in1: seq<File>, input: seq<Entry>, l: nat, g: File)
    requires VersionOk(v) && level + 1 < |v| && Selected(v, level, in0, in1) && IsInput(in0, in1, input)
    requires Stays(v, level, in0, in1, l, g) && l <= level
    ensures FileNewer(g, input)
  {
    forall a, b | a in g.entries && b in input && a.key.user == b.key.user
      ensures a.key.seqno > b.key.seqno
    {
      var f, m := InputFile(v, level, in0, in1, input, b);
      assert Newer(g, f);
    }
  }

  /** Files below the compaction are older than the stream. */
  lemma BelowIsOlder(v: Version, level: nat, in0: seq<File>, in1: seq<File>, input: seq<Entry>, l: nat, g: File)
    requires VersionOk(v) && level + 1 < |v| && Selected(v, level, in0, in1) && IsInput(in0, in1, input)
    requires level + 1 < l < |v| && g in v[l]
    ensures FileOlder(g, input)
  {
    forall a, b | a in g.entries && b in input && a.key.user == b.key.user
      ensures a.key.seqno < b.key.seqno
    {
      var f, m := InputFile(v, level, in0, in1, input, b);
      assert Newer(f, g);
    }
  }

  /** A file left behind in the output level meets no file taken from the level above. */
  lemma BesideUpper(f: File, g: File, lo: IKey, hi: IKey)
    requires FileOk(f) && FileOk(g) && AtMost(lo, f.smallest) && AtMost(f.largest, hi)
    requires !Overlaps(g, Some(lo.user), Some(hi.user))
    ensures Newer(f, g) && Newer(g, f)
    ensures Ord(g.largest.user) < Ord(lo.user) ==> Less(g.largest, f.smallest)
    ensures Ord(g.smallest.user) > Ord(hi.user) ==> Less(f.largest, g.smallest)
  {
    ApartShareNothing(f, g);
  }

  /** It lies before or after each file taken from its own level. */
  lemma BesideLower(files: seq<File>, f: File, g: File, lo: IKey, hi: IKey)
    requires DeepLevelOk(files) && FileOk(f) && FileOk(g) && f in files && g in files
    requires Overlaps(f, Some(lo.user), Some(hi.user)) && !Overlaps(g, Some(lo.user), Some(hi.user))
    ensures Ord(g.largest.user) < Ord(lo.user) ==> Less(g.largest, f.smallest) && Newer(g, f)
    ensures Ord(g.smallest.user) > Ord(hi.user) ==> Less(f.largest, g.smallest) && Newer(f, g)
  {
    InRange(f, f.entries[0]);
    InRange(g, g.entries[0]);
  }

  lemma BesideFile(v: Version, level: nat, in0: seq<File>, in1: seq<File>, lo: IKey, hi: IKey, g: File, f: File)
    requires VersionOk(v) && level + 1 < |v| && PickedFrom(v[level], in0)
    requires IsSmallest(in0, lo) && IsLargest(in0, hi) && in1 == Overlapping(v[level + 1], Some(lo.user), Some(hi.user))
    requires g in v[level + 1] && g !in in1 && (f in in0 || f in in1)
    ensures Ord(g.largest.user) < Ord(lo.user) ==> Less(g.largest, f.smallest) && Newer(g, f)
    ensures Ord(g.smallest.user) > Ord(hi.user) ==> Less(f.largest, g.smallest) && Newer(f, g)
  {
    if f in in0 {
      BesideUpper(f, g, lo, hi);
    } else {
      BesideLower(v[level + 1], f, g, lo, hi);
    }
  }

  /** Where one entry of the stream lies relative to a file left behind in the output level. */
  lemma BesideEntry(v: Version, level: nat, in0: seq<File>, in1: seq<File>, input: seq<Entry>, lo: IKey, hi: IKey,
                    g: File, b: Entry)
    requires VersionOk(v) && level + 1 < |v| && Selected(v, level, in0, in1) && IsInput(in0, in1, input)
    requires IsSmallest(in0, lo) && IsLargest(in0, hi) && in1 == Overlapping(v[level + 1], Some(lo.user), Some(hi.user))
    requires g in v[level + 1] && g !in in1 && b in input
    ensures Ord(g.largest.user) < Ord(lo.user) ==> Less(g.largest, b.key) && FileNewer(g, [b])
    ensures Ord(g.smallest.user) > Ord(hi.user) ==> Less(b.key, g.smallest) && FileOlder(g, [b])
  {
    assert PickedFrom(v[level], in0);
    hide VersionOk, Selected, IsInput, IsSmallest, IsLargest, FileOk, PickedFrom, Less, AtMost, Ord;
    var f, m := InputFile(v, level, in0, in1, input, b);
    InRange(f, b);
    BesideFile(v, level, in0, in1, lo, hi, g, f);
    if Ord(g.largest.user) < Ord(lo.user) {
      LessThenAtMost(g.largest, f.smallest, b.key);
    }
    if Ord(g.smallest.user) > Ord(hi.user) {
      AtMostThenLess(b.key, f.largest, g.smallest);
    }
  }

  /** A file left behind in the output level lies wholly before or wholly after the stream. */
  lemma BesideStream(v: Version, level: nat, in0: seq<File>, in1: seq<File>, input: seq<Entry>, g: File)
    requires VersionOk(v) && level + 1 < |v| && Selected(v, level, in0, in1) && IsInput(in0, in1, input)
    requires g in v[level + 1] && g !in in1
    ensures (FileBefore(g, input) && FileNewer(g, input)) || (FileAfter(g, input) && FileOlder(g, input))
  {
    hide VersionOk, IsInput, IsSmallest, IsLargest, Less, Ord;
    var lo, hi :| IsSmallest(in0, lo) && IsLargest(in0, hi) &&
                  in1 == Overlapping(v[level + 1], Some(lo.user), Some(hi.user));
    assert !Overlaps(g, Some(lo.user), Some(hi.user));
    forall b | b in input
      ensures Ord(g.largest.user) < Ord(lo.user) ==> Less(g.largest, b.key) && FileNewer(g, [b])
      ensures Ord(g.smallest.user) > Ord(hi.user) ==> Less(b.key, g.smallest) && FileOlder(g, [b])
    {
      BesideEntry(v, level, in0, in1, input, lo, hi, g, b);
    }
    assert forall b :: b in input ==> b in [b];
  }

  /** Files cut from part of a stream inherit its place among other files. */
  lemma CutInherits(input: seq<Entry>, o: File, g: File)
    requires FileOk(o) && forall e :: e in o.entries ==> e in input
    ensures FileNewer(g, input) ==> Newer(g, o)
    ensures FileOlder(g, input) ==> Newer(o, g)
    ensures FileBefore(g, input) ==> Less(g.largest, o.smallest)
    ensures FileAfter(g, input) ==> Less(o.largest, g.smallest)
  {
    assert o.entries[0] in o.entries && o.entries[|o.entries| - 1] in o.entries;
  }

  /** What a merge installs: the level without its inputs, the next level with the outputs. */
  ghost predicate MergeInstalled(v: Version, level: nat, in0: seq<File>, in1: seq<File>, outs: seq<File>, v': Version)
    requires level + 1 < |v|
  {
    |v'| == |v| && Relisted(v[level], in0, [], v'[level]) && Relisted(v[level + 1], in1, outs, v'[level + 1]) &&
    forall l :: 0 <= l < |v| && l != level && l != level + 1 ==> v'[l] == v[l]
  }

  /** The outputs hold part of the stream, cut in order. */
  ghost predicate AreOutputs(input: seq<Entry>, outs: seq<File>)
  {
    Chain(outs) && forall o, e :: o in outs && e in o.entries ==> e in input
  }

  /** The entries of a version are the compaction's stream and the rest. */
  lemma EntriesSplit(v: Version, level: nat, in0: seq<File>, in1: seq<File>, input: seq<Entry>)
    requires level + 1 < |v| && PickedFrom(v[level], in0) && PickedFrom(v[level + 1], in1) && IsInput(in0, in1, input)
    ensures AllEntries(v) == RestOf(v, level, in0, in1) + EntrySet(input)
  {
    forall e | e in AllEntries(v)
      ensures e in RestOf(v, level, in0, in1) + EntrySet(input)
    {
      var l, f :| 0 <= l < |v| && f in v[l] && e in f.entries;
      if !Stays(v, level, in0, in1, l, f) {
        assert e in input;
      }
    }
    forall e | e in EntrySet(input)
      ensures e in AllEntries(v)
    {
      var f :| (f in in0 || f in in1) && e in f.entries;
      assert f in v[level] || f in v[level + 1];
    }
  }

  /** After the merge they are the outputs and the same rest. */
  lemma EntriesAfter(v: Version, level: nat, in0: seq<File>, in1: seq<File>, outs: seq<File>, v': Version)
    requires level + 1 < |v| && MergeInstalled(v, level, in0, in1, outs, v')
    ensures AllEntries(v') == RestOf(v, level, in0, in1) + EntrySet(Concat(outs))
  {
    ConcatMembers(outs);
    forall e | e in AllEntries(v')
      ensures e in RestOf(v, level, in0, in1) + EntrySet(Concat(outs))
    {
      var l, f :| 0 <= l < |v'| && f in v'[l] && e in f.entries;
      if !(l == level + 1 && f in outs) {
        assert f in v[l] && Stays(v, level, in0, in1, l, f);
      }
    }
    forall e | e in RestOf(v, level, in0, in1)
      ensures e in AllEntries(v')
    {
      var l, f :| 0 <= l < |v| && f in v[l] && Stays(v, level, in0, in1, l, f) && e in f.entries;
      assert f in v'[l];
    }
    forall e | e in Concat(outs)
      ensures e in AllEntries(v')
    {
      var f :| f in outs && e in f.entries;
      assert f in v'[level + 1];
    }
  }

  /** The outputs of the compaction loop are what a merge may install. */
  lemma LoopOutputs(input: seq<Entry>, outs: seq<File>, oldest: nat, base: Bytes -> bool)
    requires Chain(outs) && Concat(outs) == Kept(input, |input|, oldest, base)
    ensures AreOutputs(input, outs)
  {
    hide Chain, Dropped;
    KeptMembers(input, |input|, oldest, base);
    ConcatMembers(outs);
    forall o, e | o in outs && e in o.entries
      ensures e in input
    {
      assert e in Concat(outs);
    }
  }

  /**
   The exact condition for a merge to leave every read at or above the oldest snapshot unchanged:
   no deletion marker that it drops hides a value in a file it leaves behind.
   */
  lemma MergeReadsExactly(v: Version, level: nat, in0: seq<File>, in1: seq<File>, input: seq<Entry>, outs: seq<File>,
                          v': Version, oldest: nat)
    requires VersionOk(v) && level + 1 < |v| && Selected(v, level, in0, in1) && IsInput(in0, in1, input)
    requires Chain(outs) && Concat(outs) == Kept(input, |input|, oldest, BaseOf(v, level))
    requires MergeInstalled(v, level, in0, in1, outs, v')
    ensures (forall user, snapshot ::
               oldest <= snapshot ==> Read(AllEntries(v'), user, snapshot) == Read(AllEntries(v), user, snapshot))
       <==> !exists user :: Resurrects(RestOf(v, level, in0, in1), EntrySet(input), oldest, BaseOf(v, level), user)
  {
    hide VersionOk, MergeInstalled, AllEntries, RestOf, Resurrects, Read, Unique, Chain, Kept;
    VersionUnique(v);
    assert PickedFrom(v[level + 1], in1);
    EntriesSplit(v, level, in0, in1, input);
    EntriesAfter(v, level, in0, in1, outs, v');
    DropsPreserveReadsExactly(RestOf(v, level, in0, in1), input, oldest, BaseOf(v, level));
  }

  /** If no older version of an input key is left behind in the output level, nothing is resurrected. */
  lemma ClosedMergeIsSafe(v: Version, level: nat, in0: seq<File>, in1: seq<File>, input: seq<Entry>, oldest: nat,
                          user: Bytes)
    requires VersionOk(v) && level + 1 < |v| && Selected(v, level, in0, in1) && IsInput(in0, in1, input)
    requires ClosedUnderOlder(v[level + 1], in1)
    ensures !Resurrects(RestOf(v, level, in0, in1), EntrySet(input), oldest, BaseOf(v, level), user)
  {
    var rest := RestOf(v, level, in0, in1);
    forall e, r | e in input && r in rest && Visible(e, user, oldest) && Visible(r, user, oldest) &&
                  r.key.seqno <= e.key.seqno
      ensures !IsBase(v, level, user)
    {
      var l, g :| 0 <= l < |v| && g in v[l] && Stays(v, level, in0, in1, l, g) && r in g.entries;
      OlderIsBelow(v, level, in0, in1, input, e, r, l, g);
      InRange(g, r);
    }
    forall e, r | e in input && IsNewest(rest + EntrySet(input), user, oldest, e) && IsNewest(rest, user, oldest, r)
      ensures !IsBase(v, level, user)
    {
      assert r in rest + EntrySet(input) && Visible(r, user, oldest);
    }
  }

  /** An entry left behind that is not newer than the stream lies below the output level. */
  lemma OlderIsBelow(v: Version, level: nat, in0: seq<File>, in1: seq<File>, input: seq<Entry>, e: Entry, r: Entry,
                     l: nat, g: File)
    requires VersionOk(v) && level + 1 < |v| && Selected(v, level, in0, in1) && IsInput(in0, in1, input)
    requires ClosedUnderOlder(v[level + 1], in1)
    requires e in input && Stays(v, level, in0, in1, l, g) && r in g.entries
    requires e.key.user == r.key.user && r.key.seqno <= e.key.seqno
    ensures l >= level + 2
  {
    hide VersionOk, Selected, IsInput, ClosedUnderOlder, Overlapping, Less;
    if l <= level {
      AboveIsNewer(v, level, in0, in1, input, l, g);
    } else if l == level + 1 {
      LeftBehindIsNewer(v, level, in0, in1, input, g);
    }
  }

  lemma LeftBehindIsNewer(v: Version, level: nat, in0: seq<File>, in1: seq<File>, input: seq<Entry>, g: File)
    requires VersionOk(v) && level + 1 < |v| && Selected(v, level, in0, in1) && IsInput(in0, in1, input)
    requires ClosedUnderOlder(v[level + 1], in1) && g in v[level + 1] && g !in in1
    ensures FileNewer(g, input)
  {
    var lo, hi :| IsSmallest(in0, lo) && IsLargest(in0, hi) &&
                  in1 == Overlapping(v[level + 1], Some(lo.user), Some(hi.user));
    assert FileOk(g);
    hide VersionOk, Selected, IsInput, Less, FileOk;
    forall a, b | a in g.entries && b in input && a.key.user == b.key.user
      ensures a.key.seqno > b.key.seqno
    {
      var f, m := InputFile(v, level, in0, in1, input, b);
      if f in in0 {
        BesideUpper(f, g, lo, hi);
      }
      assert Newer(g, f);
    }
  }

  ghost predicate NewerThanVersion(f: File, v: Version)
  {
    forall l, g :: 0 <= l < |v| && g in v[l] ==> Newer(f, g)
  }

  /** A flushed file goes to level 0 with a fresh number, or to a level that is free for it. */
  ghost predicate FlushInstalled(v: Version, level: nat, f: File, v': Version)
    requires level < |v|
  {
    && (level == 0 ==> forall g :: g in v[0] ==> g.number < f.number)
    && (level > 0 ==> FreeUpTo(v, level, f.smallest.user, f.largest.user))
    && |v'| == |v| && Relisted(v[level], [], [f], v'[level])
    && forall l :: 0 <= l < |v| && l != level ==> v'[l] == v[l]
  }

  lemma FreeIsApart(v: Version, level: nat, f: File, l: nat, g: File)
    requires FilesOk(v) && level < |v| && FileOk(f) && FreeUpTo(v, level, f.smallest.user, f.largest.user)
    requires l <= level && g in v[l]
    ensures Newer(f, g) && Newer(g, f) && (Less(f.largest, g.smallest) || Less(g.largest, f.smallest))
  {
    hide Newer, FileOk;
    assert FileOk(g);
    assert !Overlaps(g, Some(f.smallest.user), Some(f.largest.user));
    ApartShareNothing(f, g);
  }

  lemma FlushedLevelOk(v: Version, level: nat, f: File, files: seq<File>)
    requires VersionOk(v) && level < |v| && FileOk(f) && NewerThanVersion(f, v) && Relisted(v[level], [], [f], files)
    requires level == 0 ==> forall g :: g in v[0] ==> g.number < f.number
    requires level > 0 ==> FreeUpTo(v, level, f.smallest.user, f.largest.user)
    ensures if level == 0 then LevelZeroOk(files) else DeepLevelOk(files)
  {
    hide Newer, Listed, FileOk, Less, FreeUpTo, LayersOk;
    if level > 0 {
      assert DeepLevelOk(v[level]);
      forall g | g in v[level]
        ensures Newer(f, g) && Newer(g, f) && (Less(f.largest, g.smallest) || Less(g.largest, f.smallest))
      {
        FreeIsApart(v, level, f, level, g);
      }
    }
  }

  /** Installing a flushed memtable keeps the version invariant. */
  lemma FlushKeepsVersion(v: Version, level: nat, f: File, v': Version)
    requires VersionOk(v) && level < |v| && FileOk(f) && NewerThanVersion(f, v) && FlushInstalled(v, level, f, v')
    ensures VersionOk(v')
  {
    hide Newer, Listed, FileOk, FreeUpTo;
    FlushedLevelOk(v, level, f, v'[level]);
    forall l, m, a, b | 0 <= l < m < |v'| && a in v'[l] && b in v'[m]
      ensures Newer(a, b)
    {
      if m == level && b == f {
        assert a in v[l];
        FreeIsApart(v, level, f, l, a);
      } else if l == level && a == f {
        assert b in v[m];
      } else {
        assert a in v[l] && b in v[m];
      }
    }
    forall l | 0 <= l < |v'|
      ensures Listed(v'[l]) && (l > 0 ==> DeepLevelOk(v'[l]))
    {
      assert l > 0 && l != level ==> DeepLevelOk(v[l]);
    }
  }

  lemma FlushEntries(v: Version, level: nat, f: File, v': Version)
    requires level < |v| && FlushInstalled(v, level, f, v')
    ensures AllEntries(v') == AllEntries(v) + EntrySet(f.entries)
  {
    forall e | e in AllEntries(v')
      ensures e in AllEntries(v) + EntrySet(f.entries)
    {
      var l, g :| 0 <= l < |v'| && g in v'[l] && e in g.entries;
      assert g == f || g in v[l];
    }
    forall e | e in AllEntries(v)
      ensures e in AllEntries(v')
    {
      var l, g :| 0 <= l < |v| && g in v[l] && e in g.entries;
      assert g in v'[l];
    }
    assert f in v'[level];
  }
}
