/**
 A run of the engine that brings a deleted value back. A merge cuts its outputs between a deletion
 marker and an older value of the same key. A later merge takes the file with the marker but not
 the file after it, for the next level's inputs are not extended with boundary files; it drops the
 marker, and the older value is read again.
 */
module Resurrection {
  import opened Keys
  import opened Reads
  import opened Drops
  import opened Versions
  import opened Selection
  import opened Compaction
  import opened Installs
  import opened Database
  import opened WriteBatches

  const A: Bytes := [97]
  const B: Bytes := [98]

  const OLD_B := Entry(IKey(B, 1, Value), [3])
  const OLD_A := Entry(IKey(A, 2, Value), [2])
  const DELETED_B := Entry(IKey(B, 3, Deletion), [])
  const NEW_A := Entry(IKey(A, 4, Value), [1])

  // Three flushed files, and the outputs of two merges

  const FIRST := File(4, 1, OLD_B.key, OLD_B.key, [OLD_B])
  const SECOND := File(6, 1, OLD_A.key, DELETED_B.key, [OLD_A, DELETED_B])
  const LOWER := File(7, 1, OLD_A.key, DELETED_B.key, [OLD_A, DELETED_B])
  const BEHIND := File(8, 1, OLD_B.key, OLD_B.key, [OLD_B])
  const THIRD := File(10, 1, NEW_A.key, NEW_A.key, [NEW_A])
  const MERGED := File(11, 1, NEW_A.key, NEW_A.key, [NEW_A])

  const EMPTY_VERSION: Version := [[], [], [], [], [], [], []]
  const WITH_FIRST: Version := [[], [], [FIRST], [], [], [], []]
  const WITH_SECOND: Version := [[], [SECOND], [FIRST], [], [], [], []]
  const CUT: Version := [[], [], [LOWER, BEHIND], [], [], [], []]
  const WITH_THIRD: Version := [[], [THIRD], [LOWER, BEHIND], [], [], [], []]
  const LEFT_BEHIND: Version := [[], [], [MERGED, BEHIND], [], [], [], []]

  const ONE: seq<Op> := [Put(B, [3])]
  const TWO: seq<Op> := [Put(A, [2]), Delete(B)]
  const THREE: seq<Op> := [Put(A, [1])]

  const FIRST_INPUT := [OLD_A, DELETED_B, OLD_B]
  const SECOND_INPUT := [NEW_A, OLD_A, DELETED_B]

  const ACTIONS: seq<Action> := [
    Write(ONE), Snapshot, Switch, Flush(2, FIRST), Write(TWO), Switch, Flush(1, SECOND),
    Begin(1, [SECOND], [FIRST], 1), Number, Number, Install(FIRST_INPUT, [LOWER, BEHIND]),
    Release(1), Write(THREE), Switch, Flush(1, THIRD),
    Begin(1, [THIRD], [LOWER], 4), Number, Install(SECOND_INPUT, [MERGED])
  ]

  const FIRST_JOB := Job(WITH_SECOND, 1, [SECOND], [FIRST], 1, [])
  const SECOND_JOB := Job(WITH_THIRD, 1, [THIRD], [LOWER], 4, [])

  ghost const S0 := State([], None, EMPTY_VERSION, None, 0, multiset{}, 3, {})
  ghost const S1 := S0.(mem := [OLD_B], lastSequence := 1, written := S0.written + BatchEntries(ONE, 1))
  ghost const S2 := S1.(snapshots := S1.snapshots + multiset{1})
  ghost const S3 := S2.(mem := [], imm := Some([OLD_B]), nextFile := 4)
  ghost const S4 := S3.(imm := None, version := WITH_FIRST, nextFile := 5)
  ghost const S5 := S4.(mem := [OLD_A, DELETED_B], lastSequence := 3, written := S4.written + BatchEntries(TWO, 2))
  ghost const S6 := S5.(mem := [], imm := Some([OLD_A, DELETED_B]), nextFile := 6)
  ghost const S7 := S6.(imm := None, version := WITH_SECOND, nextFile := 7)
  ghost const S8 := S7.(job := Some(FIRST_JOB))
  ghost const S9 := S8.(job := Some(FIRST_JOB.(numbers := [7])), nextFile := 8)
  ghost const S10 := S9.(job := Some(FIRST_JOB.(numbers := [7, 8])), nextFile := 9)
  ghost const S11 := S10.(job := None, version := CUT)
  ghost const S12 := S11.(snapshots := S11.snapshots - multiset{1})
  ghost const S13 := S12.(mem := [NEW_A], lastSequence := 4, written := S12.written + BatchEntries(THREE, 4))
  ghost const S14 := S13.(mem := [], imm := Some([NEW_A]), nextFile := 10)
  ghost const S15 := S14.(imm := None, version := WITH_THIRD, nextFile := 11)
  ghost const S16 := S15.(job := Some(SECOND_JOB))
  ghost const S17 := S16.(job := Some(SECOND_JOB.(numbers := [11])), nextFile := 12)
  ghost const S18 := S17.(job := None, version := LEFT_BEHIND)

  ghost const STATES: seq<State> := [S0, S1, S2, S3, S4, S5, S6, S7, S8, S9, S10, S11, S12, S13, S14, S15, S16, S17,
                                     S18]

  lemma KeyOrder()
    ensures Ord(A) < Ord(B)
  {
    CompareIsOrd(A, B);
  }

  lemma FilesAreOk()
    ensures FileOk(FIRST) && FileOk(SECOND) && FileOk(LOWER) && FileOk(BEHIND) && FileOk(THIRD) && FileOk(MERGED)
    ensures Merged(FIRST_INPUT) && Merged(SECOND_INPUT)
    ensures Less(LOWER.largest, BEHIND.smallest) && Newer(LOWER, BEHIND)
  {
    KeyOrder();
    hide Ord;
  }

  lemma Writes()
    ensures WriteStep(S0, S1, ONE) && WriteStep(S4, S5, TWO) && WriteStep(S12, S13, THREE)
  {
    KeyOrder();
    hide Ord;
    assert EntrySet([OLD_B]) == EntrySet([]) + BatchEntries(ONE, 1) by {
      assert EntryFor(1, ONE[0]) == OLD_B;
    }
    assert EntrySet([OLD_A, DELETED_B]) == EntrySet([]) + BatchEntries(TWO, 2) by {
      assert EntryFor(2, TWO[0]) == OLD_A && EntryFor(3, TWO[1]) == DELETED_B;
    }
    assert EntrySet([NEW_A]) == EntrySet([]) + BatchEntries(THREE, 4) by {
      assert EntryFor(4, THREE[0]) == NEW_A;
    }
  }

  lemma Flushes()
    ensures FlushStep(S3, S4, 2, FIRST) && FlushStep(S6, S7, 1, SECOND) && FlushStep(S14, S15, 1, THIRD)
  {
    FilesAreOk();
    hide FileOk, Ord;
  }

  /** The levels are those that a flush picks, for files of any size. */
  lemma LevelsArePicked(maxFileSize: nat)
    requires maxFileSize > 0
    ensures MayPush(EMPTY_VERSION, 0, B, B, maxFileSize) && MayPush(EMPTY_VERSION, 1, B, B, maxFileSize)
    ensures MayPush(WITH_FIRST, 0, A, B, maxFileSize) && !MayPush(WITH_FIRST, 1, A, B, maxFileSize)
    ensures MayPush(CUT, 0, A, A, maxFileSize) && !MayPush(CUT, 1, A, A, maxFileSize)
  {
    KeyOrder();
    hide Ord;
    assert FIRST in WITH_FIRST[2] && Overlaps(FIRST, Some(A), Some(B));
    assert LOWER in CUT[2] && Overlaps(LOWER, Some(A), Some(A));
    assert WITH_FIRST[2][..0] == [] &&
           Overlapping(WITH_FIRST[2], Some(A), Some(B)) == Overlapping([], Some(A), Some(B)) + [FIRST];
    assert Overlapping(WITH_FIRST[2], Some(A), Some(B)) == [FIRST];
    assert [LOWER, BEHIND][..1] == [LOWER] && [LOWER][..0] == [];
    assert Overlapping([LOWER], Some(A), Some(A)) == Overlapping([], Some(A), Some(A)) + [LOWER];
    assert Overlapping(CUT[2], Some(A), Some(A)) == [LOWER];
    assert TotalFileSize([FIRST]) == 1 && TotalFileSize([LOWER]) == 1;
  }

  lemma Installed()
    ensures MergeInstalled(WITH_SECOND, 1, [SECOND], [FIRST], [LOWER, BEHIND], CUT)
    ensures MergeInstalled(WITH_THIRD, 1, [THIRD], [LOWER], [MERGED], LEFT_BEHIND)
  {
    KeyOrder();
    hide Ord;
  }

  lemma FirstMergeSelected()
    ensures Selected(WITH_SECOND, 1, [SECOND], [FIRST]) && IsInput([SECOND], [FIRST], FIRST_INPUT)
  {
    FilesAreOk();
    KeyOrder();
    hide Ord, Merged;
    assert SECOND in [SECOND] && FIRST in [FIRST];
    assert IsSmallest([SECOND], OLD_A.key) && IsLargest([SECOND], DELETED_B.key);
    assert WITH_SECOND[2][..0] == [] &&
           Overlapping([FIRST], Some(A), Some(B)) == Overlapping([], Some(A), Some(B)) + [FIRST];
    forall e
      ensures e in FIRST_INPUT <==> exists f :: (f in [SECOND] || f in [FIRST]) && e in f.entries
    {
      assert e in FIRST_INPUT <==> e in SECOND.entries || e in FIRST.entries;
    }
  }

  /** The snapshot keeps the older value, and the outputs are cut in front of it. */
  lemma FirstMerge()
    ensures BeginStep(S7, S8, 1, [SECOND], [FIRST], 1)
    ensures InstallStep(S10, S11, FIRST_INPUT, [LOWER, BEHIND])
  {
    FilesAreOk();
    FirstMergeSelected();
    Installed();
    hide Selected, IsInput, MergeInstalled, FileOk, Newer, Less;
    var base := BaseOf(WITH_SECOND, 1);
    assert Kept(FIRST_INPUT, 3, 1, base) == FIRST_INPUT by {
      assert Kept(FIRST_INPUT, 1, 1, base) == [OLD_A];
      assert Kept(FIRST_INPUT, 2, 1, base) == [OLD_A, DELETED_B];
    }
    assert [LOWER, BEHIND][..1] == [LOWER] && [LOWER][..0] == [];
    assert Concat([LOWER]) == LOWER.entries;
    assert Concat([LOWER, BEHIND]) == FIRST_INPUT;
  }

  lemma SecondMergeSelected()
    ensures Selected(WITH_THIRD, 1, [THIRD], [LOWER]) && IsInput([THIRD], [LOWER], SECOND_INPUT)
  {
    FilesAreOk();
    KeyOrder();
    hide Ord, Merged;
    assert THIRD in [THIRD] && LOWER in [LOWER];
    assert IsSmallest([THIRD], NEW_A.key) && IsLargest([THIRD], NEW_A.key);
    assert Overlapping(WITH_THIRD[2], Some(A), Some(A)) == [LOWER] by {
      assert WITH_THIRD[2][..1] == [LOWER];
      assert Overlapping([LOWER], Some(A), Some(A)) == Overlapping([], Some(A), Some(A)) + [LOWER];
    }
    forall e
      ensures e in SECOND_INPUT <==> exists f :: (f in [THIRD] || f in [LOWER]) && e in f.entries
    {
      assert e in SECOND_INPUT <==> e in THIRD.entries || e in LOWER.entries;
    }
  }

  /** No snapshot is held any more: the marker goes, and what it hid is in the file left behind. */
  lemma SecondMerge()
    ensures BeginStep(S15, S16, 1, [THIRD], [LOWER], 4)
    ensures InstallStep(S17, S18, SECOND_INPUT, [MERGED])
  {
    FilesAreOk();
    SecondMergeSelected();
    Installed();
    hide Selected, IsInput, MergeInstalled, FileOk, Newer, Less;
    var base := BaseOf(WITH_THIRD, 1);
    assert Kept(SECOND_INPUT, 3, 4, base) == [NEW_A] by {
      assert Kept(SECOND_INPUT, 1, 4, base) == [NEW_A];
      assert Kept(SECOND_INPUT, 2, 4, base) == [NEW_A];
      assert IsBase(WITH_THIRD, 1, B);
    }
    assert [MERGED][..0] == [];
    assert Concat([MERGED]) == MERGED.entries;
    assert S15.snapshots == multiset{};
  }

  lemma Numbers()
    ensures NumberStep(S8, S9) && NumberStep(S9, S10) && NumberStep(S16, S17)
  {
    assert FIRST_JOB.numbers + [7] == [7] && [7] + [8] == [7, 8] && SECOND_JOB.numbers + [11] == [11];
  }

  lemma RunIsRun()
    ensures IsRun(STATES, ACTIONS)
  {
    Writes();
    Flushes();
    FirstMerge();
    SecondMerge();
    Numbers();
    hide WriteStep, FlushStep, BeginStep, NumberStep, InstallStep, BatchEntries;
    assert Init(S0);
    forall i | 0 <= i < |ACTIONS|
      ensures Next(STATES[i], ACTIONS[i], STATES[i + 1])
    {
    }
  }

  lemma NothingFlushedMeanwhile()
    ensures forall i :: 0 <= i < |ACTIONS| ==> Fits(STATES[i], ACTIONS[i])
  {
    assert S10.version == S10.job.value.base && S17.version == S17.job.value.base;
    forall i | 0 <= i < |ACTIONS|
      ensures Fits(STATES[i], ACTIONS[i])
    {
      assert ACTIONS[i].Install? ==> i == 10 || i == 17;
    }
  }

  /**
   The run follows the selection and drop rules step by step, yet at its end the key that was put
   and then deleted has its old value again.
   */
  lemma DeletedValueReturns()
    ensures IsRun(STATES, ACTIONS) && Readable(S18, 4)
    ensures Read(S18.written, B, 4) == None && Read(Stored(S18), B, 4) == Some([3])
    ensures !ReadsHistory(STATES[|ACTIONS|])
  {
    hide IsRun, Structure, Fits, Stored, BatchEntries, IsNewest, Unique;
    RunIsRun();
    NothingFlushedMeanwhile();
    RunKeepsStructure(STATES, ACTIONS, |ACTIONS|);
    StoredUnique(S18);
    FinalStore();
    FinalHistory();
    ReadIs(Stored(S18), B, 4, OLD_B);
    ReadIs(S18.written, B, 4, DELETED_B);
  }

  lemma FinalStore()
    ensures IsNewest(Stored(S18), B, 4, OLD_B)
  {
    assert BEHIND in S18.version[2] && OLD_B in BEHIND.entries;
    forall e | e in Stored(S18)
      ensures e == NEW_A || e == OLD_B
    {
      var l, f :| 0 <= l < |LEFT_BEHIND| && f in LEFT_BEHIND[l] && e in f.entries;
    }
  }

  lemma FinalHistory()
    ensures IsNewest(S18.written, B, 4, DELETED_B)
  {
    assert EntryFor(3, TWO[1]) == DELETED_B;
    assert EntryFor(4, THREE[0]) == NEW_A && EntryFor(1, ONE[0]) == OLD_B && EntryFor(2, TWO[0]) == OLD_A;
  }
}
