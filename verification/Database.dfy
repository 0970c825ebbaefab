/**
 The storage engine as a state machine over its mutex-held steps: batched writes, memtable
 switches, flushes, trivial moves, snapshots, and merges, which are picked in one step and
 installed in a later one, with any steps but moves and other merges in between. `written` records
 every entry ever written; no step of the engine reads it.
 */
module Database {
  import opened Keys
  import opened Reads
  import opened Drops
  import opened Versions
  import opened Selection
  import opened Compaction
  import opened Installs
  import opened MidFlush
  import opened WriteBatches

  /** A running merge: the version it reads, its inputs, the snapshot it was started with and its file numbers. */
  datatype Job = Job(base: Version, level: nat, in0: seq<File>, in1: seq<File>, oldest: nat, numbers: seq<nat>)

  datatype State = State(
    mem: seq<Entry>,
    imm: Option<seq<Entry>>,
    version: Version,
    job: Option<Job>,
    lastSequence: nat,
    snapshots: multiset<nat>,
    nextFile: nat,
    written: set<Entry>)

  ghost function ImmSet(s: State): set<Entry>
  {
    if s.imm.Some? then EntrySet(s.imm.value) else {}
  }

  /** Everything the engine still stores. */
  ghost function Stored(s: State): set<Entry>
  {
    EntrySet(s.mem) + ImmSet(s) + AllEntries(s.version)
  }

  /** A reader may use any snapshot at or above one that is held, or the latest sequence number. */
  ghost predicate Readable(s: State, snapshot: nat)
  {
    s.lastSequence <= snapshot || exists t :: t in s.snapshots && t <= snapshot
  }

  ghost predicate UpTo(es: set<Entry>, n: nat)
  {
    forall e :: e in es ==> e.key.seqno <= n
  }

  /** The running merge has its place in the version, which has only grown since. */
  ghost predicate JobOk(s: State, j: Job)
  {
    && VersionOk(j.base) && j.level + 1 < |j.base| && Selected(j.base, j.level, j.in0, j.in1)
    && Grown(j.base, s.version)
    && j.oldest <= s.lastSequence && (forall t :: t in s.snapshots ==> j.oldest <= t)
    && forall n :: n in j.numbers ==> n < s.nextFile
  }

  /** What every step keeps, whatever the compactions drop. */
  ghost predicate Structure(s: State)
  {
    && VersionOk(s.version)
    && Merged(s.mem) && (s.imm.Some? ==> Merged(s.imm.value))
    && NewerThan(EntrySet(s.mem), ImmSet(s))
    && NewerThan(EntrySet(s.mem), AllEntries(s.version))
    && NewerThan(ImmSet(s), AllEntries(s.version))
    && UpTo(Stored(s), s.lastSequence) && UpTo(s.written, s.lastSequence) && s.lastSequence < MAX_SEQUENCE
    && Unique(s.written)
    && (forall t :: t in s.snapshots ==> t <= s.lastSequence)
    && (forall l, f :: 0 <= l < |s.version| && f in s.version[l] ==> f.number < s.nextFile)
    && (s.job.Some? ==> JobOk(s, s.job.value))
  }

  /** Every readable snapshot reads what was written. */
  ghost predicate ReadsHistory(s: State)
  {
    forall user, snapshot :: Readable(s, snapshot) ==>
                               Read(Stored(s), user, snapshot) == Read(s.written, user, snapshot)
  }

  /** The entries of a batch whose first sequence number is `first`. */
  ghost function BatchEntries(ops: seq<Op>, first: nat): set<Entry>
  {
    set i | 0 <= i < |ops| :: EntryFor(first + i, ops[i])
  }

  ghost predicate Init(s: State)
  {
    && s.mem == [] && s.imm == None && s.job == None && s.written == {} && s.snapshots == multiset{}
    && s.lastSequence == 0
    && s.version == seq(NUM_LEVELS, l => [])
  }

  ghost predicate WriteStep(s: State, s': State, ops: seq<Op>)
  {
    && s.lastSequence + |ops| < MAX_SEQUENCE
    && Merged(s'.mem) && EntrySet(s'.mem) == EntrySet(s.mem) + BatchEntries(ops, s.lastSequence + 1)
    && s' == s.(mem := s'.mem, lastSequence := s.lastSequence + |ops|,
             written := s.written + BatchEntries(ops, s.lastSequence + 1))
  }

  ghost predicate SwitchStep(s: State, s': State)
  {
    s.imm.None? && s' == s.(mem := [], imm := Some(s.mem), nextFile := s.nextFile + 1)
  }

  /** An empty memtable installs no file, but takes a number. */
  ghost predicate FlushStep(s: State, s': State, level: nat, f: File)
  {
    && s.imm.Some? && level < |s.version|
    && if s.imm.value == [] then s' == s.(imm := None, nextFile := s.nextFile + 1)
       else
         && f.number == s.nextFile && f.entries == s.imm.value
         && FileOk(f) && FlushInstalled(s.version, level, f, s'.version)
         && s' == s.(imm := None, version := s'.version, nextFile := s.nextFile + 1)
  }

  ghost predicate MoveStep(s: State, s': State, level: nat, f: File)
  {
    && s.job.None? && level + 1 < |s.version| && Selected(s.version, level, [f], [])
    && MergeInstalled(s.version, level, [f], [], [f], s'.version)
    && s' == s.(version := s'.version)
  }

  /** The oldest snapshot held, or the latest sequence number when none is. */
  ghost predicate IsOldest(s: State, oldest: nat)
  {
    if s.snapshots == multiset{} then oldest == s.lastSequence
    else oldest in s.snapshots && forall t :: t in s.snapshots ==> oldest <= t
  }

  /** A merge starts: it reads the version as it is now. */
  ghost predicate BeginStep(s: State, s': State, level: nat, in0: seq<File>, in1: seq<File>, oldest: nat)
  {
    && s.job.None? && IsOldest(s, oldest) && level + 1 < |s.version| && Selected(s.version, level, in0, in1)
    && s' == s.(job := Some(Job(s.version, level, in0, in1, oldest, [])))
  }

  /** The merge opens an output file. */
  ghost predicate NumberStep(s: State, s': State)
  {
    s.job.Some? &&
    s' == s.(job := Some(s.job.value.(numbers := s.job.value.numbers + [s.nextFile])), nextFile := s.nextFile + 1)
  }

  /** The outputs of the merge `j`: what it keeps of its inputs, under the numbers of its files. */
  ghost predicate Outputs(j: Job, input: seq<Entry>, outs: seq<File>)
  {
    && IsInput(j.in0, j.in1, input) && Chain(outs)
    && Concat(outs) == Kept(input, |input|, j.oldest, BaseOf(j.base, j.level))
    && |outs| == |j.numbers| && forall i :: 0 <= i < |outs| ==> outs[i].number == j.numbers[i]
  }

  /** The merge is done: its outputs replace its inputs in the version as it is by now. */
  ghost predicate InstallStep(s: State, s': State, input: seq<Entry>, outs: seq<File>)
  {
    s.job.Some? &&
    var j := s.job.value;
    && Outputs(j, input, outs)
    && j.level + 1 < |s.version| && MergeInstalled(s.version, j.level, j.in0, j.in1, outs, s'.version)
    && s' == s.(version := s'.version, job := None)
  }

  /** The merge fails, or the database shuts down. */
  ghost predicate AbandonStep(s: State, s': State)
  {
    s.job.Some? && s' == s.(job := None)
  }

  /** The merge leaves no value behind that a dropped deletion marker hid. */
  ghost predicate SafeMerge(j: Job, input: seq<Entry>)
  {
    !exists user :: Resurrects(RestOf(j.base, j.level, j.in0, j.in1), EntrySet(input), j.oldest,
                               BaseOf(j.base, j.level), user)
  }

  ghost predicate SnapshotStep(s: State, s': State)
  {
    s' == s.(snapshots := s.snapshots + multiset{s.lastSequence})
  }

  ghost predicate ReleaseStep(s: State, s': State, t: nat)
  {
    t in s.snapshots && s' == s.(snapshots := s.snapshots - multiset{t})
  }

  datatype Action =
    | Write(ops: seq<Op>)
    | Switch
    | Flush(level: nat, file: File)
    | Move(level: nat, file: File)
    | Begin(level: nat, in0: seq<File>, in1: seq<File>, oldest: nat)
    | Number
    | Install(input: seq<Entry>, outs: seq<File>)
    | Abandon
    | Snapshot
    | Release(t: nat)

  ghost predicate Next(s: State, a: Action, s': State)
  {
    match a
    case Write(ops) => WriteStep(s, s', ops)
    case Switch => SwitchStep(s, s')
    case Flush(level, f) => FlushStep(s, s', level, f)
    case Move(level, f) => MoveStep(s, s', level, f)
    case Begin(level, in0, in1, oldest) => BeginStep(s, s', level, in0, in1, oldest)
    case Number => NumberStep(s, s')
    case Install(input, outs) => InstallStep(s, s', input, outs)
    case Abandon => AbandonStep(s, s')
    case Snapshot => SnapshotStep(s, s')
    case Release(t) => ReleaseStep(s, s', t)
  }

  ghost predicate Safe(s: State, a: Action)
  {
    a.Install? && s.job.Some? ==> SafeMerge(s.job.value, a.input)
  }

  /** No file flushed since the merge began lies inside one of its outputs. */
  ghost predicate Fits(s: State, a: Action)
  {
    a.Install? && s.job.Some? && s.job.value.level + 1 < |s.job.value.base| && |s.version| == |s.job.value.base| ==>
      FlushesFit(s.job.value.base, s.version, s.job.value.level, a.outs)
  }

  lemma StoredUnique(s: State)
    requires Structure(s)
    ensures Unique(Stored(s)) && Unique(EntrySet(s.mem) + ImmSet(s)) && Unique(s.written)
    ensures NewerThan(EntrySet(s.mem) + ImmSet(s), AllEntries(s.version))
  {
    VersionUnique(s.version);
    hide VersionOk, AllEntries, Sorted;
    assert Unique(EntrySet(s.mem)) by { MergedUnique(s.mem); }
    assert Unique(ImmSet(s)) by { if s.imm.Some? { MergedUnique(s.imm.value); } }
  }

  lemma MergedUnique(es: seq<Entry>)
    requires Merged(es)
    ensures Unique(EntrySet(es))
  {
  }

  /** Writing: new entries are newer than everything, in the store and in the history alike. */
  lemma WriteReads(s: State, s': State, ops: seq<Op>)
    requires Structure(s) && ReadsHistory(s) && WriteStep(s, s', ops)
    ensures ReadsHistory(s')
  {
    hide Structure, Unique, BatchEntries, Stored, Read, Merged, EntrySet, NewerThan, UpTo;
    var latest := BatchEntries(ops, s.lastSequence + 1);
    LatestFacts(s, ops);
    StoredAfterWrite(s, s', ops);
    forall user: Bytes, snapshot: nat | Readable(s', snapshot)
      ensures Read(Stored(s'), user, snapshot) == Read(s'.written, user, snapshot)
    {
      assert Readable(s, snapshot);
      assert s'.written == latest + s.written;
      ReadLayers(latest, Stored(s), user, snapshot);
      ReadLayers(latest, s.written, user, snapshot);
    }
  }

  lemma LatestFacts(s: State, ops: seq<Op>)
    requires Structure(s)
    ensures var latest := BatchEntries(ops, s.lastSequence + 1);
            NewerThan(latest, Stored(s)) && Unique(latest + Stored(s)) &&
            UpTo(latest + Stored(s), s.lastSequence + |ops|) &&
            NewerThan(latest, s.written) && Unique(latest + s.written) &&
            UpTo(latest + s.written, s.lastSequence + |ops|)
  {
    hide VersionOk, AllEntries, BatchEntries, Merged, Unique, NewerThan;
    StoredUnique(s);
    BatchIsNewest(ops, s.lastSequence, Stored(s));
    BatchIsNewest(ops, s.lastSequence, s.written);
  }

  lemma StoredAfterWrite(s: State, s': State, ops: seq<Op>)
    requires WriteStep(s, s', ops)
    ensures Stored(s') == BatchEntries(ops, s.lastSequence + 1) + Stored(s)
  {
    hide AllEntries, BatchEntries, Merged;
  }

  lemma BatchIsNewest(ops: seq<Op>, last: nat, earlier: set<Entry>)
    requires Unique(earlier) && UpTo(earlier, last)
    ensures NewerThan(BatchEntries(ops, last + 1), earlier) && Unique(BatchEntries(ops, last + 1) + earlier)
    ensures UpTo(BatchEntries(ops, last + 1) + earlier, last + |ops|)
  {
  }

  lemma WriteStructure(s: State, s': State, ops: seq<Op>)
    requires Structure(s) && WriteStep(s, s', ops)
    ensures Structure(s')
  {
    hide VersionOk, AllEntries, BatchEntries, Merged, Unique;
    LatestFacts(s, ops);
    StoredAfterWrite(s, s', ops);
    var latest := BatchEntries(ops, s.lastSequence + 1);
    assert s'.written == latest + s.written;
  }

  lemma FlushFacts(s: State, s': State, level: nat, f: File)
    requires Structure(s) && FlushStep(s, s', level, f)
    ensures VersionOk(s'.version) && AllEntries(s'.version) == AllEntries(s.version) + ImmSet(s)
  {
    if s.imm.value != [] {
      forall l, g | 0 <= l < |s.version| && g in s.version[l]
        ensures Newer(f, g)
      {
        assert forall e :: e in g.entries ==> e in AllEntries(s.version);
        assert forall e :: e in f.entries ==> e in ImmSet(s);
      }
      hide VersionOk, FlushInstalled, AllEntries, Newer, FileOk;
      FlushKeepsVersion(s.version, level, f, s'.version);
      FlushEntries(s.version, level, f, s'.version);
    }
  }

  lemma FlushNumbers(s: State, s': State, level: nat, f: File)
    requires Structure(s) && FlushStep(s, s', level, f)
    ensures forall l, g :: 0 <= l < |s'.version| && g in s'.version[l] ==> g.number < s'.nextFile
  {
    hide VersionOk, AllEntries, Merged, FileOk, Listed;
    if s.imm.value != [] {
      forall l, g | 0 <= l < |s'.version| && g in s'.version[l]
        ensures g.number < s'.nextFile
      {
        assert g == f || g in s.version[l];
      }
    }
  }

  lemma FlushJob(s: State, s': State, level: nat, f: File)
    requires Structure(s) && FlushStep(s, s', level, f)
    ensures s'.job.Some? ==> JobOk(s', s'.job.value)
  {
    if s.job.Some? && s.imm.value != [] {
      forall l, g | 0 <= l < |s.version| && g in s.version[l]
        ensures Newer(f, g)
      {
        assert forall e :: e in g.entries ==> e in AllEntries(s.version);
        assert forall e :: e in f.entries ==> e in ImmSet(s);
      }
      assert JobOk(s, s.job.value);
      hide VersionOk, FlushInstalled, AllEntries, Newer, FileOk, Grown, Selected;
      FlushGrows(s.job.value.base, s.version, level, f, s'.version);
    }
  }

  lemma FlushStructure(s: State, s': State, level: nat, f: File)
    requires Structure(s) && FlushStep(s, s', level, f)
    ensures Structure(s') && Stored(s') == Stored(s)
  {
    hide VersionOk, AllEntries, FlushInstalled, FileOk, Merged, Unique, JobOk;
    FlushFacts(s, s', level, f);
    FlushNumbers(s, s', level, f);
    FlushJob(s, s', level, f);
  }

  lemma MoveStructure(s: State, s': State, level: nat, f: File)
    requires Structure(s) && MoveStep(s, s', level, f)
    ensures Structure(s') && Stored(s') == Stored(s)
  {
    MoveKeepsVersion(s.version, level, f, s'.version);
    forall l, g | 0 <= l < |s'.version| && g in s'.version[l]
      ensures g.number < s'.nextFile
    {
      assert f in [f] && f in s.version[level];
      assert g == f || g in s.version[l];
    }
    hide VersionOk, AllEntries, MergeInstalled, Selected, Merged, Unique;
  }

  lemma BeginStructure(s: State, s': State, level: nat, in0: seq<File>, in1: seq<File>, oldest: nat)
    requires Structure(s) && BeginStep(s, s', level, in0, in1, oldest)
    ensures Structure(s')
  {
    NothingFlushed(s.version);
    hide VersionOk, AllEntries, Selected, Merged, Unique, Grown;
  }

  lemma InstallNumbers(s: State, s': State, input: seq<Entry>, outs: seq<File>)
    requires Structure(s) && InstallStep(s, s', input, outs)
    ensures forall l, g :: 0 <= l < |s'.version| && g in s'.version[l] ==> g.number < s'.nextFile
  {
    hide VersionOk, AllEntries, Merged, Selected, IsInput, Chain, Kept, Listed, Grown;
    var j := s.job.value;
    forall l, g | 0 <= l < |s'.version| && g in s'.version[l]
      ensures g.number < s'.nextFile
    {
      if g in outs {
        var i :| 0 <= i < |outs| && outs[i] == g;
        assert j.numbers[i] in j.numbers;
      } else {
        assert g in s.version[l];
      }
    }
  }

  /** The results of a merge keep the version good exactly when the files flushed meanwhile fit. */
  lemma InstallVersion(s: State, s': State, input: seq<Entry>, outs: seq<File>)
    requires Structure(s) && InstallStep(s, s', input, outs)
    ensures var j := s.job.value; |s.version| == |j.base| &&
                                  (VersionOk(s'.version) <==> FlushesFit(j.base, s.version, j.level, outs))
    ensures AllEntries(s'.version) <= AllEntries(s.version)
  {
    var j := s.job.value;
    assert JobOk(s, j) && |s.version| == |j.base|;
    assert Picked(j.base, j.level, j.in0, j.in1, input);
    hide VersionOk, MergeInstalled, IsInput, AllEntries, Chain, Dropped, Grown, FlushesFit, Picked, Kept;
    LoopOutputs(input, outs, j.oldest, BaseOf(j.base, j.level));
    InstallKeepsVersionExactly(j.base, s.version, j.level, j.in0, j.in1, input, outs, s'.version);
    InstallShrinks(j.base, s.version, j.level, j.in0, j.in1, input, outs, s'.version, j.oldest);
  }

  lemma InstallStructure(s: State, s': State, input: seq<Entry>, outs: seq<File>)
    requires Structure(s) && InstallStep(s, s', input, outs)
    ensures Structure(s') <==> Fits(s, Install(input, outs))
  {
    InstallVersion(s, s', input, outs);
    InstallNumbers(s, s', input, outs);
    assert JobOk(s, s.job.value);
    hide VersionOk, AllEntries, MergeInstalled, Selected, Outputs, Merged, Unique, Grown, FlushesFit;
  }

  /** A merge that resurrects nothing changes no readable read. */
  lemma InstallReadsHistory(s: State, s': State, input: seq<Entry>, outs: seq<File>)
    requires Structure(s) && ReadsHistory(s) && InstallStep(s, s', input, outs) && SafeMerge(s.job.value, input)
    ensures ReadsHistory(s')
  {
    var j := s.job.value;
    StoredUnique(s);
    assert JobOk(s, j);
    assert Picked(j.base, j.level, j.in0, j.in1, input);
    var top := EntrySet(s.mem) + ImmSet(s);
    hide VersionOk, AllEntries, MergeInstalled, Selected, IsInput, Merged, Unique, Chain, Kept, Resurrects;
    hide Structure, Read, Picked, Grown;
    forall user, snapshot | Readable(s', snapshot)
      ensures Read(Stored(s'), user, snapshot) == Read(s'.written, user, snapshot)
    {
      assert Readable(s, snapshot) && j.oldest <= snapshot;
      InstallReads(top, j.base, s.version, j.level, j.in0, j.in1, input, outs, s'.version, j.oldest, user, snapshot);
    }
  }

  /** A step of the engine keeps the structural invariant exactly when no flushed file lies inside a merge's output. */
  lemma NextKeepsStructure(s: State, a: Action, s': State)
    requires Structure(s) && Next(s, a, s')
    ensures Structure(s') <==> Fits(s, a)
  {
    match a
    case Write(ops) => WriteStructure(s, s', ops);
    case Switch =>
      hide VersionOk, AllEntries, Unique, Selected, Grown;
    case Flush(level, f) => FlushStructure(s, s', level, f);
    case Move(level, f) => MoveStructure(s, s', level, f);
    case Begin(level, in0, in1, oldest) => BeginStructure(s, s', level, in0, in1, oldest);
    case Install(input, outs) => InstallStructure(s, s', input, outs);
    case _ => OtherStructure(s, a, s');
  }

  lemma OtherStructure(s: State, a: Action, s': State)
    requires Structure(s) && Next(s, a, s') && (a.Number? || a.Abandon? || a.Snapshot? || a.Release?)
    ensures Structure(s')
  {
    hide VersionOk, AllEntries, Unique, Merged, Selected, Grown;
  }

  /** Every safe step keeps all readable snapshots reading the history. */
  lemma NextKeepsReads(s: State, a: Action, s': State)
    requires Structure(s) && ReadsHistory(s) && Next(s, a, s') && Safe(s, a)
    ensures ReadsHistory(s')
  {
    hide VersionOk, Stored, Structure, ReadsHistory, WriteStep, FlushInstalled, MergeInstalled, Selected;
    hide Unique, Outputs, SafeMerge;
    match a
    case Write(ops) => WriteReads(s, s', ops);
    case Install(input, outs) => InstallReadsHistory(s, s', input, outs);
    case Flush(level, f) =>
      FlushStructure(s, s', level, f);
      SameStoreReads(s, s');
    case Move(level, f) =>
      MoveStructure(s, s', level, f);
      SameStoreReads(s, s');
    case _ =>
      OtherStore(s, a, s');
      SameStoreReads(s, s');
  }

  lemma OtherStore(s: State, a: Action, s': State)
    requires Next(s, a, s') && !a.Write? && !a.Flush? && !a.Move? && !a.Install?
    ensures Stored(s') == Stored(s) && s'.written == s.written && s'.lastSequence == s.lastSequence
    ensures forall t :: t in s'.snapshots ==> t in s.snapshots || t == s.lastSequence
  {
    hide AllEntries, Selected;
  }

  lemma SameStoreReads(s: State, s': State)
    requires ReadsHistory(s) && Stored(s') == Stored(s) && s'.written == s.written && s'.lastSequence == s.lastSequence
    requires forall t :: t in s'.snapshots ==> t in s.snapshots || t == s.lastSequence
    ensures ReadsHistory(s')
  {
    hide Stored, Read;
    forall user, snapshot | Readable(s', snapshot)
      ensures Read(Stored(s'), user, snapshot) == Read(s'.written, user, snapshot)
    {
      assert Readable(s, snapshot);
    }
  }

  lemma InitOk(s: State)
    requires Init(s)
    ensures Structure(s) && ReadsHistory(s)
  {
    assert Stored(s) == {};
  }

  /** A run of the engine from an empty database. */
  ghost predicate IsRun(states: seq<State>, actions: seq<Action>)
  {
    && |states| == |actions| + 1 && Init(states[0])
    && forall i :: 0 <= i < |actions| ==> Next(states[i], actions[i], states[i + 1])
  }

  /** Over every run in which flushed files fit the merges, every reachable version is good. */
  lemma {:induction false} RunKeepsStructure(states: seq<State>, actions: seq<Action>, n: nat)
    requires IsRun(states, actions) && n < |states|
    requires forall i :: 0 <= i < n ==> Fits(states[i], actions[i])
    ensures Structure(states[n])
  {
    hide Structure, Next, Init, Fits;
    if n == 0 {
      InitOk(states[0]);
    } else {
      RunKeepsStructure(states, actions, n - 1);
      NextKeepsStructure(states[n - 1], actions[n - 1], states[n]);
    }
  }

  /** Over every such run whose merges are safe, every readable snapshot reads what was written. */
  lemma {:induction false} RunReadsHistory(states: seq<State>, actions: seq<Action>, n: nat)
    requires IsRun(states, actions) && n < |states|
    requires forall i :: 0 <= i < n ==> Fits(states[i], actions[i]) && Safe(states[i], actions[i])
    ensures ReadsHistory(states[n])
  {
    hide Structure, Next, Init, Fits, Safe, ReadsHistory;
    if n == 0 {
      InitOk(states[0]);
    } else {
      RunKeepsStructure(states, actions, n - 1);
      RunReadsHistory(states, actions, n - 1);
      NextKeepsReads(states[n - 1], actions[n - 1], states[n]);
    }
  }

  /** The running merge was picked without a gap between its inputs. */
  ghost predicate JobUnsplit(s: State)
  {
    s.job.Some? ==> Unsplit(s.job.value.in0 + s.job.value.in1)
  }

  lemma UnsplitStep(s: State, a: Action, s': State)
    requires Structure(s) && JobUnsplit(s) && Next(s, a, s') && (a.Begin? ==> Unsplit(a.in0 + a.in1))
    ensures JobUnsplit(s') && Fits(s, a)
  {
    hide VersionOk, AllEntries, Unique, Merged, Selected, Unsplit, Chain, Kept, Grown, MergeInstalled;
    if a.Install? {
      var j := s.job.value;
      assert JobOk(s, j) && Picked(j.base, j.level, j.in0, j.in1, a.input);
      hide Structure, Picked, FlushesFit;
      LoopOutputs(a.input, a.outs, j.oldest, BaseOf(j.base, j.level));
      UnsplitFits(j.base, s.version, j.level, j.in0, j.in1, a.input, a.outs);
    }
  }

  /** Over every run whose merges are picked without gaps, as those started by size or seeks are, all is well. */
  lemma {:induction false} UnsplitRun(states: seq<State>, actions: seq<Action>, n: nat)
    requires IsRun(states, actions) && n < |states|
    requires forall i :: 0 <= i < n && actions[i].Begin? ==> Unsplit(actions[i].in0 + actions[i].in1)
    ensures Structure(states[n]) && JobUnsplit(states[n])
    ensures forall i :: 0 <= i < n ==> Fits(states[i], actions[i])
  {
    hide Structure, Next, Init, Fits, Unsplit;
    if n == 0 {
      InitOk(states[0]);
      InitIdle(states[0]);
    } else {
      UnsplitRun(states, actions, n - 1);
      UnsplitStep(states[n - 1], actions[n - 1], states[n]);
      NextKeepsStructure(states[n - 1], actions[n - 1], states[n]);
    }
  }

  lemma InitIdle(s: State)
    requires Init(s)
    ensures JobUnsplit(s)
  {
  }

  /** Carrying out the merge `j`: whatever numbers its files were handed, what the loop returns can be installed. */
  method RunMerge(j: Job, input: seq<Entry>, numbers: nat -> nat, stop: nat -> bool, full: nat -> bool,
                  sizeOf: seq<Entry> -> nat) returns (outs: seq<File>)
    requires VersionOk(j.base) && IsInput(j.in0, j.in1, input) && j.oldest < MAX_SEQUENCE
    ensures Outputs(j.(numbers := seq(|outs|, (i: nat) => numbers(i))), input, outs)
  {
    hide Chain, Kept, Concat;
    var work := new CompactionJob(j.level, j.base);
    outs := work.DoCompactionWork(input, j.oldest, numbers, stop, full, sizeOf);
  }

  /** The layers of the store hide one another from the memtable down. */
  lemma LayeredRead(s: State, user: Bytes, snapshot: nat)
    requires Structure(s)
    ensures Unique(EntrySet(s.mem)) && Unique(ImmSet(s))
    ensures Read(Stored(s), user, snapshot) ==
            if Found(EntrySet(s.mem), user, snapshot) then Read(EntrySet(s.mem), user, snapshot)
            else if Found(ImmSet(s), user, snapshot) then Read(ImmSet(s), user, snapshot)
            else Read(AllEntries(s.version), user, snapshot)
  {
    StoredUnique(s);
    hide VersionOk, AllEntries, Merged, Read, NewerThan, UpTo, Visible;
    ReadLayers(EntrySet(s.mem) + ImmSet(s), AllEntries(s.version), user, snapshot);
    ReadLayers(EntrySet(s.mem), ImmSet(s), user, snapshot);
    assert Found(EntrySet(s.mem) + ImmSet(s), user, snapshot)
      <==> Found(EntrySet(s.mem), user, snapshot) || Found(ImmSet(s), user, snapshot) by {
      FoundEither(EntrySet(s.mem), ImmSet(s), user, snapshot);
    }
  }

  /** The read path: memtable, then immutable memtable, then the version. */
  method GetValue(s: State, user: Bytes, snapshot: nat) returns (r: Option<Bytes>)
    requires Structure(s)
    ensures r == Read(Stored(s), user, snapshot)
  {
    LayeredRead(s, user, snapshot);
    hide VersionOk, AllEntries, Stored, Unique, NewerThan, Merged, TableGet, UpTo, Read;
    TableGetIsNewest(s.mem, user, snapshot);
    var hit := TableGet(s.mem, user, snapshot);
    if hit.Some? {
      FoundNewest(EntrySet(s.mem), user, snapshot, hit.value);
      ReadIs(EntrySet(s.mem), user, snapshot, hit.value);
      return ValueOf(hit.value);
    }
    if s.imm.Some? {
      TableGetIsNewest(s.imm.value, user, snapshot);
      hit := TableGet(s.imm.value, user, snapshot);
      if hit.Some? {
        FoundNewest(ImmSet(s), user, snapshot, hit.value);
        ReadIs(ImmSet(s), user, snapshot, hit.value);
        return ValueOf(hit.value);
      }
    }
    r := Get(s.version, user, snapshot);
  }

  lemma FoundNewest(s: set<Entry>, user: Bytes, snapshot: nat, e: Entry)
    requires IsNewest(s, user, snapshot, e)
    ensures Found(s, user, snapshot)
  {
    assert e in s && Visible(e, user, snapshot);
  }

  lemma FoundEither(s: set<Entry>, t: set<Entry>, user: Bytes, snapshot: nat)
    ensures Found(s + t, user, snapshot) <==> Found(s, user, snapshot) || Found(t, user, snapshot)
  {
    forall e | e in s || e in t
      ensures e in s + t
    {
    }
  }
}
