/**
 The merging compaction: the stateful base-level test and the loop that drops entries and cuts
 the rest into output files.
 */
module Compaction {
  import opened Keys
  import opened Drops
  import opened Versions

  /** No level below the output level has a file whose user key range contains the key. */
  predicate IsBase(v: Version, level: nat, user: Bytes)
  {
    forall l, f :: level + 2 <= l < |v| && f in v[l] ==> !Covers(f, user)
  }

  function BaseOf(v: Version, level: nat): Bytes -> bool
  {
    user => IsBase(v, level, user)
  }

  /** The entries of a list of files, in order. */
  function Concat(files: seq<File>): seq<Entry>
  {
    if files == [] then [] else Concat(files[..|files| - 1]) + files[|files| - 1].entries
  }

  /** Good files that follow one another, each newer than the next on a shared user key. */
  ghost predicate Chain(files: seq<File>)
  {
    (forall f :: f in files ==> FileOk(f)) &&
    forall i, j :: 0 <= i < j < |files| ==> Less(files[i].largest, files[j].smallest) && Newer(files[i], files[j])
  }

  /** The recorded key range of a file is that of its entries. */
  ghost predicate RangeRecorded(f: File)
  {
    |f.entries| > 0 && f.smallest == f.entries[0].key && f.largest == f.entries[|f.entries| - 1].key
  }

  lemma {:induction false} ConcatMembers(files: seq<File>)
    ensures forall e :: e in Concat(files) <==> exists f :: f in files && e in f.entries
  {
    if files != [] {
      var n := |files| - 1;
      ConcatMembers(files[..n]);
      assert forall f :: f in files <==> f in files[..n] || f == files[n];
    }
  }

  /** Files cut from a merged stream form a chain. */
  lemma {:induction false} CutsFormChain(files: seq<File>)
    requires Merged(Concat(files)) && forall f :: f in files ==> RangeRecorded(f)
    ensures Chain(files)
  {
    if files != [] {
      var n := |files| - 1;
      MergedSplit(Concat(files[..n]), files[n].entries);
      CutsFormChain(files[..n]);
      ConcatMembers(files[..n]);
      forall i | 0 <= i < n
        ensures Less(files[i].largest, files[n].smallest) && Newer(files[i], files[n])
      {
        var f := files[i];
        assert f in files[..n] && f in files && files[n] in files;
        assert f.entries[|f.entries| - 1] in Concat(files[..n]) && files[n].entries[0] in files[n].entries;
      }
      assert FileOk(files[n]);
      forall i, j | 0 <= i < j < |files|
        ensures Less(files[i].largest, files[j].smallest) && Newer(files[i], files[j])
      {
        if j < n {
          assert files[..n][i] == files[i] && files[..n][j] == files[j];
        }
      }
    }
  }

  /** Files that end before the key, then one that begins after it: none contains the key. */
  lemma NoneCovers(files: seq<File>, p: nat, user: Bytes)
    requires Ascends(files) && p <= |files|
    requires forall i :: 0 <= i < p ==> Ord(files[i].largest.user) < Ord(user)
    requires p < |files| ==> Ord(user) < Ord(files[p].smallest.user) && Ord(user) <= Ord(files[p].largest.user)
    ensures forall f :: f in files ==> !Covers(f, user)
  {
    forall f | f in files
      ensures !Covers(f, user)
    {
      var i :| 0 <= i < |files| && files[i] == f;
      if p < i {
        InRange(files[p], files[p].entries[0]);
        assert Less(files[p].largest, files[i].smallest);
      }
    }
  }

  /** Advances past the files that end before the key and looks at the next one. */
  method AdvancePtr(files: seq<File>, start: nat, user: Bytes) returns (p: nat, covers: bool)
    requires Ascends(files) && start <= |files|
    requires forall i :: 0 <= i < start ==> Ord(files[i].largest.user) < Ord(user)
    ensures p <= |files| && forall i :: 0 <= i < p ==> Ord(files[i].largest.user) < Ord(user)
    ensures covers == exists f :: f in files && Covers(f, user)
  {
    p := start;
    while p < |files| && Ord(user) > Ord(files[p].largest.user)
      invariant p <= |files|
      invariant forall i :: 0 <= i < p ==> Ord(files[i].largest.user) < Ord(user)
    {
      p := p + 1;
    }
    covers := p < |files| && Ord(user) >= Ord(files[p].smallest.user);
    if covers {
      assert files[p] in files && Covers(files[p], user);
    } else {
      NoneCovers(files, p, user);
    }
  }

  class CompactionJob {
    const level: nat
    const version: Version
    var levelPtrs: seq<nat>

    constructor (level: nat, version: Version)
      requires |version| == NUM_LEVELS
      ensures this.level == level && this.version == version
      ensures Valid() && forall input :: Ahead(input, 0)
    {
      this.level := level;
      this.version := version;
      levelPtrs := seq(NUM_LEVELS, i => 0);
    }

    ghost predicate Valid()
      reads this
    {
      |version| == NUM_LEVELS && |levelPtrs| == NUM_LEVELS &&
      forall l :: 0 <= l < NUM_LEVELS ==> levelPtrs[l] <= |version[l]|
    }

    /** The files passed so far end before `user`. */
    ghost predicate Before(user: Bytes)
      requires Valid()
      reads this
    {
      forall l, i :: 0 <= l < NUM_LEVELS && 0 <= i < levelPtrs[l] ==> Ord(version[l][i].largest.user) < Ord(user)
    }

    /** One level of the base-level test: advances the pointer and looks at one file. */
    method LevelCovers(l: nat, user: Bytes) returns (covers: bool)
      requires VersionOk(version) && Valid() && Before(user) && 1 <= l < NUM_LEVELS
      modifies `levelPtrs
      ensures Valid() && Before(user)
      ensures covers == exists f :: f in version[l] && Covers(f, user)
    {
      DeepLevelAscends(version, l);
      var p;
      p, covers := AdvancePtr(version[l], levelPtrs[l], user);
      levelPtrs := levelPtrs[l := p];
    }

    /**
     Whether no deeper level's file contains the key. Called with ascending keys, it answers
     exactly, although it never looks back.
     */
    method IsBaseLevelForKey(user: Bytes) returns (base: bool)
      requires VersionOk(version) && Valid() && Before(user)
      modifies `levelPtrs
      ensures Valid() && Before(user)
      ensures base == IsBase(version, level, user)
    {
      var l := level + 2;
      while l < NUM_LEVELS
        invariant Valid() && Before(user) && level + 2 <= l
        invariant forall m, f :: level + 2 <= m < l && m < |version| && f in version[m] ==> !Covers(f, user)
      {
        var covers := LevelCovers(l, user);
        if covers {
          return false;
        }
        l := l + 1;
      }
      base := true;
    }

    /** The files passed so far end before every input entry from `i` on. */
    ghost predicate Ahead(input: seq<Entry>, i: nat)
      requires Valid()
      reads this
    {
      forall j :: i <= j < |input| ==> Before(input[j].key.user)
    }

    /** The decision for one entry; `last` is the sequence number of the previous entry of its user key. */
    method ShouldDrop(input: seq<Entry>, i: nat, last: nat, snapshot: nat) returns (drop: bool)
      requires VersionOk(version) && Valid() && Merged(input) && i < |input| && snapshot < MAX_SEQUENCE
      requires Ahead(input, i)
      requires last == if i > 0 && input[i - 1].key.user == input[i].key.user then input[i - 1].key.seqno
                       else MAX_SEQUENCE
      modifies `levelPtrs
      ensures Valid() && Ahead(input, i + 1)
      ensures drop == Dropped(input, i, snapshot, BaseOf(version, level))
    {
      var key := input[i].key;
      drop := false;
      if last <= snapshot {
        drop := true;
      } else if key.kind.Deletion? && key.seqno <= snapshot {
        drop := IsBaseLevelForKey(key.user);
        BeforeLater(input, i);
      }
    }

    /**
     The compaction loop. `stop` and `full` say before and after which input entries an output
     file is closed, `sizeOf` how large a file gets, `numbers` which number each output is handed;
     all four are left open.
     */
    method DoCompactionWork(input: seq<Entry>, snapshot: nat, numbers: nat -> nat, stop: nat -> bool,
                            full: nat -> bool, sizeOf: seq<Entry> -> nat) returns (outputs: seq<File>)
      requires VersionOk(version) && Valid() && Merged(input) && snapshot < MAX_SEQUENCE
      requires Ahead(input, 0)
      modifies `levelPtrs
      ensures Concat(outputs) == Kept(input, |input|, snapshot, BaseOf(version, level))
      ensures Chain(outputs)
      ensures forall i :: 0 <= i < |outputs| ==> outputs[i].number == numbers(i)
    {
      ghost var base := BaseOf(version, level);
      outputs := [];
      var building: seq<Entry> := [];
      var currentUser: Bytes := [];
      var hasCurrentUser := false;
      var lastSequenceForKey := MAX_SEQUENCE;
      var i := 0;
      while i < |input|
        invariant 0 <= i <= |input|
        invariant hasCurrentUser == (i > 0)
        invariant i > 0 ==> currentUser == input[i - 1].key.user && lastSequenceForKey == input[i - 1].key.seqno
        invariant Valid() && Ahead(input, i)
        invariant Written(outputs, building, numbers, Kept(input, i, snapshot, base))
      {
        if stop(i) && building != [] {
          outputs, building := Close(outputs, building, numbers, sizeOf), [];
        }
        if !hasCurrentUser || input[i].key.user != currentUser {
          currentUser := input[i].key.user;
          hasCurrentUser := true;
          lastSequenceForKey := MAX_SEQUENCE;
        }
        var drop := ShouldDrop(input, i, lastSequenceForKey, snapshot);
        lastSequenceForKey := input[i].key.seqno;
        if !drop {
          AddWritten(outputs, building, numbers, Kept(input, i, snapshot, base), input[i]);
          building := building + [input[i]];
          if full(i) {
            outputs, building := Close(outputs, building, numbers, sizeOf), [];
          }
        } else {
          assert Kept(input, i + 1, snapshot, base) == Kept(input, i, snapshot, base);
        }
        i := i + 1;
      }
      if building != [] {
        outputs, building := Close(outputs, building, numbers, sizeOf), [];
      }
      assert Concat(outputs) + [] == Concat(outputs);
      KeptMerged(input, |input|, snapshot, base);
      CutsFormChain(outputs);
    }

    /** Later keys are at or after the current one, so the passed files still end before them. */
    lemma BeforeLater(input: seq<Entry>, i: nat)
      requires Valid() && Merged(input) && i < |input| && Before(input[i].key.user)
      ensures forall j :: i <= j < |input| ==> Before(input[j].key.user)
    {
      forall j | i < j < |input|
        ensures Before(input[j].key.user)
      {
        assert Less(input[i].key, input[j].key);
      }
    }

    /** The finished files and the one under construction hold exactly the entries kept so far. */
    static ghost predicate Written(outputs: seq<File>, building: seq<Entry>, numbers: nat -> nat, kept: seq<Entry>)
    {
      Concat(outputs) + building == kept && (forall f :: f in outputs ==> RangeRecorded(f)) &&
      forall k :: 0 <= k < |outputs| ==> outputs[k].number == numbers(k)
    }

    static lemma AddWritten(outputs: seq<File>, building: seq<Entry>, numbers: nat -> nat, kept: seq<Entry>, e: Entry)
      requires Written(outputs, building, numbers, kept)
      ensures Written(outputs, building + [e], numbers, kept + [e])
    {
      assert Concat(outputs) + (building + [e]) == Concat(outputs) + building + [e];
    }

    /** Finishes the file under construction and lists it as an output. */
    static function Close(outputs: seq<File>, building: seq<Entry>, numbers: nat -> nat,
                          sizeOf: seq<Entry> -> nat): (r: seq<File>)
      requires building != []
      ensures forall kept :: Written(outputs, building, numbers, kept) ==> Written(r, [], numbers, kept)
    {
      var f := File(numbers(|outputs|), sizeOf(building), building[0].key, building[|building| - 1].key, building);
      assert (outputs + [f])[..|outputs|] == outputs;
      assert Concat(outputs + [f]) + [] == Concat(outputs) + building;
      outputs + [f]
    }
  }
}
