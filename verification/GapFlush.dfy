/**
 A run of the engine in which a key is lost to lookups. A merge over a range of keys takes two files
 with a gap between them; while it runs, a memtable whose only key lies in the gap is flushed to the
 output level, which is free for it. The merge's output spans the gap, so two files of a level below
 0 overlap, and binary search selects the one without the key.
 */
module GapFlush {
  import opened Keys
  import opened Reads
  import opened Drops
  import opened Versions
  import opened Selection
  import opened Compaction
  import opened Installs
  import opened Database
  import opened WriteBatches

  const A: Bytes := [97]
  const M: Bytes := [109]
  const Z: Bytes := [122]

  const OLD_A := Entry(IKey(A, 1, Value), [1])
  const OLD_Z := Entry(IKey(Z, 2, Value), [2])
  const NEW_A := Entry(IKey(A, 3, Value), [3])
  const NEW_Z := Entry(IKey(Z, 4, Value), [4])
  const MIDDLE := Entry(IKey(M, 5, Value), [5])

  const FILE_A := File(4, 1, OLD_A.key, OLD_A.key, [OLD_A])
  const FILE_Z := File(6, 1, OLD_Z.key, OLD_Z.key, [OLD_Z])
  const ABOVE_A := File(8, 1, NEW_A.key, NEW_A.key, [NEW_A])
  const ABOVE_Z := File(10, 1, NEW_Z.key, NEW_Z.key, [NEW_Z])
  const INSIDE := File(12, 1, MIDDLE.key, MIDDLE.key, [MIDDLE])
  const MERGED := File(13, 1, NEW_A.key, NEW_Z.key, [NEW_A, NEW_Z])

  const V0: Version := [[], [], [], [], [], [], []]
  const V1: Version := [[], [], [FILE_A], [], [], [], []]
  const V2: Version := [[], [], [FILE_A, FILE_Z], [], [], [], []]
  const V3: Version := [[], [ABOVE_A], [FILE_A, FILE_Z], [], [], [], []]
  const V4: Version := [[], [ABOVE_A, ABOVE_Z], [FILE_A, FILE_Z], [], [], [], []]
  const V5: Version := [[], [ABOVE_A, ABOVE_Z], [FILE_A, INSIDE, FILE_Z], [], [], [], []]
  const V6: Version := [[], [], [MERGED, INSIDE], [], [], [], []]

  const FIRST: seq<Op> := [Put(A, [1])]
  const SECOND: seq<Op> := [Put(Z, [2])]
  const THIRD: seq<Op> := [Put(A, [3])]
  const FOURTH: seq<Op> := [Put(Z, [4])]
  const FIFTH: seq<Op> := [Put(M, [5])]

  const INPUT := [NEW_A, OLD_A, NEW_Z, OLD_Z]
  const JOB := Job(V4, 1, [ABOVE_A, ABOVE_Z], [FILE_A, FILE_Z], 4, [])

  const ACTIONS: seq<Action> := [
    Write(FIRST), Switch, Flush(2, FILE_A), Write(SECOND), Switch, Flush(2, FILE_Z),
    Write(THIRD), Switch, Flush(1, ABOVE_A), Write(FOURTH), Switch, Flush(1, ABOVE_Z),
    Begin(1, [ABOVE_A, ABOVE_Z], [FILE_A, FILE_Z], 4),
    Write(FIFTH), Switch, Flush(2, INSIDE),
    Number, Install(INPUT, [MERGED])
  ]

  ghost const S0 := State([], None, V0, None, 0, multiset{}, 3, {})
  ghost const S1 := Wrote(S0, OLD_A)
  ghost const S2 := Switched(S1)
  ghost const S3 := Flushed(S2, V1)
  ghost const S4 := Wrote(S3, OLD_Z)
  ghost const S5 := Switched(S4)
  ghost const S6 := Flushed(S5, V2)
  ghost const S7 := Wrote(S6, NEW_A)
  ghost const S8 := Switched(S7)
  ghost const S9 := Flushed(S8, V3)
  ghost const S10 := Wrote(S9, NEW_Z)
  ghost const S11 := Switched(S10)
  ghost const S12 := Flushed(S11, V4)
  ghost const S13 := S12.(job := Some(JOB))
  ghost const S14 := Wrote(S13, MIDDLE)
  ghost const S15 := Switched(S14)
  ghost const S16 := Flushed(S15, V5)
  ghost const S17 := S16.(job := Some(JOB.(numbers := [13])), nextFile := 14)
  ghost const S18 := S17.(job := None, version := V6)

  ghost const STATES: seq<State> := [S0, S1, S2, S3, S4, S5, S6, S7, S8, S9, S10, S11, S12, S13, S14, S15, S16, S17,
                                     S18]

  /** After writing one entry to an empty memtable. */
  ghost function Wrote(s: State, e: Entry): State
  {
    s.(mem := [e], lastSequence := e.key.seqno,
    written := s.written + BatchEntries([Put(e.key.user, e.value)], e.key.seqno))
  }

  ghost function Switched(s: State): State
  {
    s.(mem := [], imm := Some(s.mem), nextFile := s.nextFile + 1)
  }

  ghost function Flushed(s: State, v: Version): State
  {
    s.(imm := None, version := v, nextFile := s.nextFile + 1)
  }

  lemma KeyOrder()
    ensures Ord(A) < Ord(M) < Ord(Z)
  {
    CompareIsOrd(A, M);
    CompareIsOrd(M, Z);
  }

  lemma OneWrite(s: State, e: Entry)
    requires s.mem == [] && e.key.kind == Value && e.key.seqno == s.lastSequence + 1 && s.lastSequence < 100
    ensures WriteStep(s, Wrote(s, e), [Put(e.key.user, e.value)])
  {
    assert EntryFor(e.key.seqno, Put(e.key.user, e.value)) == e;
    assert EntrySet([e]) == EntrySet([]) + BatchEntries([Put(e.key.user, e.value)], e.key.seqno) by {
      assert [Put(e.key.user, e.value)][0] == Put(e.key.user, e.value);
    }
  }

  lemma Writes()
    ensures WriteStep(S0, S1, FIRST) && WriteStep(S3, S4, SECOND) && WriteStep(S6, S7, THIRD)
    ensures WriteStep(S9, S10, FOURTH) && WriteStep(S13, S14, FIFTH)
  {
    hide WriteStep, BatchEntries;
    OneWrite(S0, OLD_A);
    OneWrite(S3, OLD_Z);
    OneWrite(S6, NEW_A);
    OneWrite(S9, NEW_Z);
    OneWrite(S13, MIDDLE);
  }

  lemma SingleOk(f: File, e: Entry)
    requires f.entries == [e] && f.smallest == e.key && f.largest == e.key
    ensures FileOk(f)
  {
  }

  lemma FilesAreOk()
    ensures FileOk(FILE_A) && FileOk(FILE_Z) && FileOk(ABOVE_A) && FileOk(ABOVE_Z) && FileOk(INSIDE) && FileOk(MERGED)
    ensures Merged(INPUT)
  {
    SingleOk(FILE_A, OLD_A);
    SingleOk(FILE_Z, OLD_Z);
    SingleOk(ABOVE_A, NEW_A);
    SingleOk(ABOVE_Z, NEW_Z);
    SingleOk(INSIDE, MIDDLE);
    KeyOrder();
    hide Ord;
  }

  lemma Switches()
    ensures SwitchStep(S1, S2) && SwitchStep(S4, S5) && SwitchStep(S7, S8) && SwitchStep(S10, S11)
    ensures SwitchStep(S14, S15)
  {
    hide BatchEntries;
  }

  lemma FirstFlushes()
    ensures FlushStep(S2, S3, 2, FILE_A) && FlushStep(S5, S6, 2, FILE_Z)
  {
    FilesAreOk();
    KeyOrder();
    hide FileOk, Ord, BatchEntries;
  }

  lemma LaterFlushes()
    ensures FlushStep(S8, S9, 1, ABOVE_A) && FlushStep(S11, S12, 1, ABOVE_Z)
  {
    FilesAreOk();
    KeyOrder();
    hide FileOk, Ord, BatchEntries;
  }

  lemma MiddleFlush()
    ensures FlushStep(S15, S16, 2, INSIDE)
  {
    FilesAreOk();
    KeyOrder();
    hide FileOk, Ord, BatchEntries;
  }

  /** The levels are those that a flush picks, for files of any size. */
  lemma LevelsArePicked(maxFileSize: nat)
    requires maxFileSize > 0
    ensures MayPush(V0, 0, A, A, maxFileSize) && MayPush(V0, 1, A, A, maxFileSize)
    ensures MayPush(V1, 0, Z, Z, maxFileSize) && MayPush(V1, 1, Z, Z, maxFileSize)
    ensures MayPush(V2, 0, A, A, maxFileSize) && !MayPush(V2, 1, A, A, maxFileSize)
    ensures MayPush(V3, 0, Z, Z, maxFileSize) && !MayPush(V3, 1, Z, Z, maxFileSize)
    ensures MayPush(V4, 0, M, M, maxFileSize) && MayPush(V4, 1, M, M, maxFileSize)
  {
    FreeLevels();
    TakenLevels();
    MeetsFew();
    hide FreeUpTo, Overlapping, TotalFileSize;
  }

  lemma FreeLevels()
    ensures FreeUpTo(V0, 1, A, A) && FreeUpTo(V0, 2, A, A) && FreeUpTo(V1, 1, Z, Z) && FreeUpTo(V1, 2, Z, Z)
    ensures FreeUpTo(V4, 1, M, M) && FreeUpTo(V4, 2, M, M)
  {
    KeyOrder();
    hide Ord;
  }

  lemma TakenLevels()
    ensures FreeUpTo(V2, 1, A, A) && !FreeUpTo(V2, 2, A, A) && FreeUpTo(V3, 1, Z, Z) && !FreeUpTo(V3, 2, Z, Z)
  {
    KeyOrder();
    hide Ord;
    assert FILE_A in V2[2] && Overlaps(FILE_A, Some(A), Some(A));
    assert FILE_Z in V3[2] && Overlaps(FILE_Z, Some(Z), Some(Z));
  }

  lemma MeetsFew()
    ensures TotalFileSize(Overlapping([], Some(A), Some(A))) == 0
    ensures TotalFileSize(Overlapping([], Some(Z), Some(Z))) == 0
    ensures TotalFileSize(Overlapping([], Some(M), Some(M))) == 0
    ensures TotalFileSize(Overlapping([FILE_A], Some(Z), Some(Z))) == 0
    ensures TotalFileSize(Overlapping([FILE_A, FILE_Z], Some(A), Some(A))) <= 1
    ensures TotalFileSize(Overlapping([FILE_A, FILE_Z], Some(Z), Some(Z))) <= 1
    ensures TotalFileSize(Overlapping([FILE_A, FILE_Z], Some(M), Some(M))) <= 1
  {
    MeetsOne(A);
    MeetsOne(Z);
    MeetsOne(M);
    KeyOrder();
    hide Ord;
    assert [FILE_A][..0] == [] && Overlapping([FILE_A], Some(Z), Some(Z)) == Overlapping([], Some(Z), Some(Z)) + [];
  }

  /** Of the two files on level 2, a single key meets at most one. */
  lemma MeetsOne(k: Bytes)
    requires k == A || k == M || k == Z
    ensures TotalFileSize(Overlapping([FILE_A, FILE_Z], Some(k), Some(k))) <= 1
  {
    KeyOrder();
    hide Ord;
    assert [FILE_A, FILE_Z][..1] == [FILE_A] && [FILE_A][..0] == [];
    assert Overlapping([FILE_A], Some(k), Some(k)) == Overlapping([], Some(k), Some(k)) + if k == A then [FILE_A]
                                                      else [];
    assert Overlapping([FILE_A, FILE_Z], Some(k), Some(k)) == if k == A then [FILE_A] else if k == Z
                                                              then [FILE_Z] else [];
  }

  lemma TwoOverlap(f: File, g: File)
    requires Overlaps(f, Some(A), Some(Z)) && Overlaps(g, Some(A), Some(Z))
    ensures Overlapping([f, g], Some(A), Some(Z)) == [f, g]
  {
    hide Overlaps;
    assert [f, g][..1] == [f] && [f][..0] == [];
    assert Overlapping([f], Some(A), Some(Z)) == Overlapping([], Some(A), Some(Z)) + [f];
  }

  lemma InputsRange()
    ensures IsSmallest([ABOVE_A, ABOVE_Z], NEW_A.key) && IsLargest([ABOVE_A, ABOVE_Z], NEW_Z.key)
  {
    KeyOrder();
    hide Ord;
    var in0 := [ABOVE_A, ABOVE_Z];
    assert in0[0] == ABOVE_A && in0[1] == ABOVE_Z && ABOVE_A in in0 && ABOVE_Z in in0;
    forall f | f in in0
      ensures f == ABOVE_A || f == ABOVE_Z
    {
    }
  }

  /** The inputs are the files that a manual compaction of the range from A to Z takes. */
  lemma MergeSelected()
    ensures Overlapping(V4[1], Some(A), Some(Z)) == [ABOVE_A, ABOVE_Z]
    ensures Selected(V4, 1, [ABOVE_A, ABOVE_Z], [FILE_A, FILE_Z])
  {
    KeyOrder();
    assert Overlaps(ABOVE_A, Some(A), Some(Z)) && Overlaps(ABOVE_Z, Some(A), Some(Z)) by {
      hide Ord;
    }
    assert Overlaps(FILE_A, Some(A), Some(Z)) && Overlaps(FILE_Z, Some(A), Some(Z)) by {
      hide Ord;
    }
    hide Ord, Overlaps, IsSmallest, IsLargest, Overlapping;
    TwoOverlap(ABOVE_A, ABOVE_Z);
    TwoOverlap(FILE_A, FILE_Z);
    InputsRange();
    assert V4[1] == [ABOVE_A, ABOVE_Z] && V4[2] == [FILE_A, FILE_Z];
  }

  lemma MergeInput()
    ensures IsInput([ABOVE_A, ABOVE_Z], [FILE_A, FILE_Z], INPUT)
  {
    FilesAreOk();
    hide Merged;
    var in0, in1 := [ABOVE_A, ABOVE_Z], [FILE_A, FILE_Z];
    assert ABOVE_A in in0 && ABOVE_Z in in0 && FILE_A in in1 && FILE_Z in in1;
    forall e
      ensures e in INPUT <==> exists f :: (f in in0 || f in in1) && e in f.entries
    {
      assert e in INPUT <==> e in ABOVE_A.entries || e in ABOVE_Z.entries || e in FILE_A.entries || e in FILE_Z.entries;
    }
  }

  lemma Begins()
    ensures BeginStep(S12, S13, 1, [ABOVE_A, ABOVE_Z], [FILE_A, FILE_Z], 4) && NumberStep(S16, S17)
  {
    MergeSelected();
    hide Selected, BatchEntries;
    assert JOB.numbers + [13] == [13];
  }

  lemma Kepts()
    ensures Kept(INPUT, 4, 4, BaseOf(V4, 1)) == [NEW_A, NEW_Z]
  {
    hide Ord;
    var base := BaseOf(V4, 1);
    assert Kept(INPUT, 1, 4, base) == [NEW_A];
    assert Kept(INPUT, 2, 4, base) == [NEW_A];
    assert Kept(INPUT, 3, 4, base) == [NEW_A, NEW_Z];
  }

  lemma MergeInstalls()
    ensures InstallStep(S17, S18, INPUT, [MERGED])
  {
    FilesAreOk();
    MergeInput();
    Installed();
    Kepts();
    hide Selected, IsInput, MergeInstalled, FileOk, Newer, Less, Kept, BatchEntries;
    assert [MERGED][..0] == [];
    assert Concat([MERGED]) == MERGED.entries;
  }

  lemma Installed()
    ensures MergeInstalled(V5, 1, [ABOVE_A, ABOVE_Z], [FILE_A, FILE_Z], [MERGED], V6)
  {
    KeyOrder();
    hide Ord;
  }

  lemma StepOfRun(i: nat)
    requires i < |ACTIONS|
    ensures Next(STATES[i], ACTIONS[i], STATES[i + 1])
  {
    hide WriteStep, SwitchStep, FlushStep, BeginStep, NumberStep, InstallStep, BatchEntries, Wrote, Switched, Flushed;
    Writes();
    Switches();
    FirstFlushes();
    LaterFlushes();
    MiddleFlush();
    Begins();
    MergeInstalls();
  }

  lemma RunIsRun()
    ensures IsRun(STATES, ACTIONS)
  {
    assert Init(S0);
    hide Next, Init;
    forall i | 0 <= i < |ACTIONS|
      ensures Next(STATES[i], ACTIONS[i], STATES[i + 1])
    {
      StepOfRun(i);
    }
  }

  /** In the last version two files of a level overlap. */
  lemma LevelBroken()
    ensures !DeepLevelOk(V6[2])
  {
    KeyOrder();
    hide Ord, Newer;
    assert MERGED in V6[2] && INSIDE in V6[2] && MERGED != INSIDE;
  }

  /** The inputs leave a gap, in which M lies. */
  lemma InputsSplit()
    ensures !Unsplit([ABOVE_A, ABOVE_Z] + [FILE_A, FILE_Z])
  {
    KeyOrder();
    hide Ord, Unsplit;
    var all := [ABOVE_A, ABOVE_Z] + [FILE_A, FILE_Z];
    assert all[0] == ABOVE_A && all[1] == ABOVE_Z;
    assert !OneSide(all, M, M);
    forall f | f in all
      ensures !Overlaps(f, Some(M), Some(M))
    {
      assert f == ABOVE_A || f == ABOVE_Z || f == FILE_A || f == FILE_Z;
    }
    SplitBy(all, M, M);
  }

  lemma SplitBy(files: seq<File>, b: Bytes, e: Bytes)
    requires Ord(b) <= Ord(e) && Avoids(files, b, e) && !OneSide(files, b, e)
    ensures !Unsplit(files)
  {
  }

  /**
   The run follows the selection, flush and drop rules step by step. At its end the store holds the
   value of M, but binary search on the one level that has files selects a file without it.
   */
  lemma FlushedKeyIsLost()
    ensures FileSearch(V6[2], LookupKey(M, 5), 0, 2) == 0 && TableGet(V6[2][0].entries, M, 5) == None
    ensures IsRun(STATES, ACTIONS) && STATES[|ACTIONS|] == S18 && !Structure(S18) && !Unsplit(JOB.in0 + JOB.in1)
    ensures Readable(S18, 5) && Read(Stored(S18), M, 5) == Some([5])
    ensures S18.mem == [] && S18.imm.None? && S18.version == V6
  {
    hide IsRun, Stored, Read, FileSearch, TableGet, DeepLevelOk, BatchEntries, FilesOk, Listed, LevelZeroOk, LayersOk;
    RunIsRun();
    LevelBroken();
    InputsSplit();
    StoreHolds();
    SearchMisses();
  }

  lemma StoreHolds()
    ensures Read(Stored(S18), M, 5) == Some([5])
  {
    KeyOrder();
    hide Ord, BatchEntries, Read;
    assert INSIDE in S18.version[2] && MIDDLE in INSIDE.entries;
    forall e | e in Stored(S18)
      ensures e == NEW_A || e == NEW_Z || e == MIDDLE
    {
      var l, f :| 0 <= l < |V6| && f in V6[l] && e in f.entries;
    }
    assert IsNewest(Stored(S18), M, 5, MIDDLE);
    ReadIs(Stored(S18), M, 5, MIDDLE);
  }

  lemma SearchMisses()
    ensures FileSearch(V6[2], LookupKey(M, 5), 0, 2) == 0 && TableGet(V6[2][0].entries, M, 5) == None
  {
    KeyOrder();
    hide Ord;
    assert FileSearch(V6[2], LookupKey(M, 5), 0, 2) == FileSearch(V6[2], LookupKey(M, 5), 0, 1);
    assert FileSearch(V6[2], LookupKey(M, 5), 0, 1) == FileSearch(V6[2], LookupKey(M, 5), 0, 0);
    assert [NEW_A, NEW_Z][1..] == [NEW_Z] && [NEW_Z][1..] == [];
  }
}
