/**
 The engine and its files together, one step at a time: what the engine does to its state while it
 holds its lock, and the single writes to disk before and after. Between the disk steps of a write,
 of a flush or of a merge, other steps may come; only the steps of one background thread exclude
 one another.
 */
module DiskSteps {
  import opened Keys
  import opened Reads
  import opened Drops
  import opened Versions
  import opened Selection
  import opened Compaction
  import opened Installs
  import opened WriteBatches
  import opened Histories
  import E = Database
  import F = Durability

  /**
   The engine, its files, and what is under way: the batch that is being written, the number of the
   table that a memtable is being flushed to, and the outputs that the running merge has built.
   */
  datatype State = State(db: E.State, files: F.State, writing: Option<seq<Op>>, flushing: Option<nat>, outs: seq<File>)

  function NumbersIn(files: seq<File>): set<nat>
  {
    set f | f in files :: f.number
  }

  ghost function NumbersOf(v: Version): set<nat>
  {
    set l, f | 0 <= l < |v| && f in v[l] :: f.number
  }

  /** No two files of a version share a number. */
  ghost predicate OneFile(v: Version)
  {
    forall l, m, f, g :: 0 <= l < |v| && 0 <= m < |v| && f in v[l] && g in v[m] && f.number == g.number ==>
                           l == m && f == g
  }

  ghost predicate TableIs(d: F.Disk, f: File)
  {
    f.number in d.tables && d.tables[f.number] == EntrySet(f.entries)
  }

  /** The manifest names the files of the version, and their tables hold their entries. */
  ghost predicate FilesAgree(v: Version, d: F.Disk)
  {
    && OneFile(v) && d.manifest.files == NumbersOf(v)
    && forall l, f :: 0 <= l < |v| && f in v[l] ==> TableIs(d, f)
  }

  /** The batch being written is in the log, and its entries come next. */
  function InFlight(s: State): seq<Entry>
  {
    if s.writing.Some? then Entries(s.db.lastSequence + 1, s.writing.value) else []
  }

  ghost predicate MemsAgree(s: State)
    requires s.files.process.Up?
  {
    var db, p := s.db, s.files.process;
    && p.inFlight == InFlight(s) && (s.writing.Some? ==> db.lastSequence + |s.writing.value| < MAX_SEQUENCE)
    && p.lastSequence == db.lastSequence
    && p.nextFile == db.nextFile + (if s.flushing.Some? then 1 else 0)
    && EntrySet(p.mem) == EntrySet(db.mem) && p.imm.Some? == db.imm.Some?
    && (p.imm.Some? ==> EntrySet(p.imm.value) == EntrySet(db.imm.value))
  }

  /** A flush has taken the next number; its table is pending until its edit is to be logged. */
  ghost predicate FlushAgrees(s: State)
    requires s.files.process.Up?
  {
    var p, n := s.files.process, s.db.nextFile;
    if s.flushing.None? then p.installing.None?
    else
      && s.db.imm.Some? && p.imm.Some? && s.flushing.value == n
      && if p.installing.Some? then p.installing.value == n
         else n in p.pending && (n in p.built ==> BuiltAs(s.files.disk, n, EntrySet(p.imm.value)))
  }

  ghost predicate BuiltAs(d: F.Disk, n: nat, entries: set<Entry>)
  {
    n in d.tables && d.tables[n] == entries
  }

  /** The numbers of a running merge are pending, and the first of them belong to the outputs built so far. */
  ghost predicate JobAgrees(db: E.State, outs: seq<File>, p: F.Process, d: F.Disk)
    requires p.Up?
  {
    if db.job.None? then outs == []
    else
      var ns := db.job.value.numbers;
      && (forall i, j :: 0 <= i < j < |ns| ==> ns[i] != ns[j])
      && (forall n :: n in ns ==> n in p.pending && n < db.nextFile)
      && |outs| <= |ns|
      && (forall i :: 0 <= i < |outs| ==> outs[i].number == ns[i] && TableIs(d, outs[i]))
      && forall i :: 0 <= i < |ns| ==> (ns[i] in p.built <==> i < |outs|)
  }

  ghost predicate Agree(s: State)
  {
    && s.files.process.Up? && MemsAgree(s) && FlushAgrees(s) && FilesAgree(s.db.version, s.files.disk)
    && JobAgrees(s.db, s.outs, s.files.process, s.files.disk) && s.files.acked == s.db.written
  }

  datatype Step =
    | Append(ops: seq<Op>)                  // the batch goes to the log
    | Commit                                // and from there to the memtable
    | StartFlush
    | BuildFlush                            // an empty memtable leaves no table
    | SealFlush
    | EndFlush(level: nat, file: File)
    | BuildOutput(out: File)
    | EndMerge(input: seq<Entry>)
    | Other(a: E.Action)
    | Clean(f: F.Step)                      // files that are in use are noted, others deleted

  /** What a step is for the engine. */
  function InEngine(s: State, step: Step): Option<E.Action>
  {
    match step
    case Commit => if s.writing.Some? then Some(E.Write(s.writing.value)) else None
    case EndFlush(level, f) => Some(E.Flush(level, f))
    case EndMerge(input) => Some(E.Install(input, s.outs))
    case Other(a) => Some(a)
    case _ => None
  }

  /** What a step is on disk. */
  function OnDisk(s: State, step: Step): Option<F.Step>
  {
    match step
    case Append(ops) => Some(F.Append(Entries(s.db.lastSequence + 1, ops)))
    case Commit => Some(F.Acknowledge)
    case StartFlush => Some(F.Allocate)
    case BuildFlush => if s.db.imm.Some? then Some(F.Build(s.db.nextFile, EntrySet(s.db.imm.value))) else None
    case SealFlush => Some(F.Unprotect(s.db.nextFile))
    case EndFlush(_, _) => Some(F.InstallFlush)
    case BuildOutput(o) => Some(F.Build(o.number, EntrySet(o.entries)))
    case EndMerge(_) =>
      if s.db.job.None? then None
      else Some(F.InstallCompaction(NumbersIn(s.db.job.value.in0 + s.db.job.value.in1), NumbersIn(s.outs)))
    case Other(Switch) => Some(F.SwitchLog)
    case Other(Move(_, _)) => Some(F.InstallCompaction({}, {}))
    case Other(Number) => Some(F.Allocate)
    case Other(Abandon) => if s.db.job.None? then None else Some(F.Abandon(set n | n in s.db.job.value.numbers))
    case Other(_) => None
    case Clean(f) => Some(f)
  }

  /** When the code takes a step: one batch is written at a time, and one thing is done in the background. */
  ghost predicate Ready(s: State, step: Step)
  {
    match step
    case Append(ops) => s.writing.None? && s.db.lastSequence + |ops| < MAX_SEQUENCE
    case Commit => s.writing.Some?
    case StartFlush => s.db.imm.Some? && s.flushing.None?
    case BuildFlush =>
      && s.flushing.Some? && s.files.process.Up? && s.files.process.installing.None?
      && s.db.imm.Some? && s.db.imm.value != [] && s.db.nextFile !in s.files.process.built
    case SealFlush =>
      && s.flushing.Some? && s.files.process.Up? && s.files.process.installing.None?
      && (s.db.imm == Some([]) || s.db.nextFile in s.files.process.built)
    case EndFlush(_, _) => s.flushing.Some? && s.files.process.Up? && s.files.process.installing.Some?
    case BuildOutput(o) =>
      && s.flushing.None? && s.db.job.Some? && |s.outs| < |s.db.job.value.numbers|
      && o.number == s.db.job.value.numbers[|s.outs|]
    case EndMerge(_) => s.flushing.None?
    case Other(Switch) => s.writing.None?
    case Other(a) => a.Snapshot? || a.Release? || (s.flushing.None? && !a.Write? && !a.Flush? && !a.Install?)
    case Clean(f) => (f.Pin? || f.Unpin? || f.DeleteTable? || f.DeleteLog?) && F.Enabled(s.files, f)
  }

  // What is under way after a step

  function WritingAfter(s: State, step: Step): Option<seq<Op>>
  {
    if step.Append? then Some(step.ops) else if step.Commit? then None else s.writing
  }

  function FlushingAfter(s: State, step: Step): Option<nat>
  {
    if step.StartFlush? then Some(s.db.nextFile) else if step.EndFlush? then None else s.flushing
  }

  function OutsAfter(s: State, step: Step): seq<File>
  {
    if step.BuildOutput? then s.outs + [step.out]
    else if step.EndMerge? || step == Other(E.Abandon) then []
    else s.outs
  }

  /** The engine takes its part of a step, if it has one. */
  ghost predicate EngineMay(s: State, step: Step, db': E.State)
  {
    var a := InEngine(s, step);
    if a.None? then db' == s.db else E.Next(s.db, a.value, db')
  }

  ghost predicate Next(s: State, step: Step, s': State)
  {
    && Ready(s, step) && EngineMay(s, step, s'.db)
    && (var f := OnDisk(s, step);
        if f.None? then s'.files == s.files
        else F.Enabled(s.files, f.value) && s'.files == F.Do(s.files, f.value))
    && s'.writing == WritingAfter(s, step) && s'.flushing == FlushingAfter(s, step) && s'.outs == OutsAfter(s, step)
  }

  // Writes

  lemma BatchSet(first: nat, ops: seq<Op>)
    ensures EntrySet(Entries(first, ops)) == E.BatchEntries(ops, first) && F.Consecutive(Entries(first, ops), first)
  {
    EntriesBecome(first, ops);
    hide E.BatchEntries;
  }

  lemma SetOfBoth(a: seq<Entry>, b: seq<Entry>)
    ensures EntrySet(a + b) == EntrySet(a) + EntrySet(b)
  {
  }

  lemma Wrote(db: E.State, db': E.State, ops: seq<Op>)
    requires E.WriteStep(db, db', ops)
    ensures db'.imm == db.imm && db'.version == db.version && db'.job == db.job && db'.nextFile == db.nextFile
    ensures db'.lastSequence == db.lastSequence + |ops|
    ensures db'.written == db.written + E.BatchEntries(ops, db.lastSequence + 1)
    ensures EntrySet(db'.mem) == EntrySet(db.mem) + E.BatchEntries(ops, db.lastSequence + 1)
  {
    hide E.BatchEntries, EntrySet, Merged;
  }

  lemma SameFiles(v: Version, d: F.Disk, d': F.Disk)
    requires FilesAgree(v, d) && d'.manifest.files == d.manifest.files && d'.tables == d.tables
    ensures FilesAgree(v, d')
  {
    hide OneFile, NumbersOf;
    forall l, f | 0 <= l < |v| && f in v[l]
      ensures TableIs(d', f)
    {
      assert TableIs(d, f);
    }
  }

  /** Nothing that a running merge relies on has changed. */
  lemma SameJob(db: E.State, outs: seq<File>, p: F.Process, d: F.Disk, db': E.State, p': F.Process, d': F.Disk)
    requires p.Up? && p'.Up? && JobAgrees(db, outs, p, d) && db'.job == db.job && db'.nextFile >= db.nextFile
    requires p'.built == p.built
    requires forall n :: n in p.pending && n < db.nextFile ==> n in p'.pending
    requires forall n :: n in p.built && n < db.nextFile && n in d.tables ==>
                          n in d'.tables && d'.tables[n] == d.tables[n]
    ensures JobAgrees(db', outs, p', d')
  {
    if db.job.Some? {
      var ns := db.job.value.numbers;
      forall i | 0 <= i < |outs|
        ensures TableIs(d', outs[i])
      {
        assert ns[i] in ns && ns[i] in p.built && TableIs(d, outs[i]);
      }
    }
  }

  /** Neither memtable, batch nor flush is touched. */
  lemma MemsKept(s: State, s': State)
    requires s.files.process.Up? && s'.files.process.Up? && MemsAgree(s) && FlushAgrees(s)
    requires s'.writing == s.writing && s'.flushing == s.flushing
    requires s'.db.mem == s.db.mem && s'.db.imm == s.db.imm && s'.db.lastSequence == s.db.lastSequence
    requires var p, p' := s.files.process, s'.files.process;
             && p'.mem == p.mem && p'.imm == p.imm && p'.inFlight == p.inFlight && p'.lastSequence == p.lastSequence
             && p'.installing == p.installing && p'.nextFile - p.nextFile == s'.db.nextFile - s.db.nextFile
             && (s.flushing.Some? ==> s'.db.nextFile == s.db.nextFile && p'.pending == p.pending && p'.built == p.built)
    requires s.flushing.Some? && s.db.nextFile in s.files.disk.tables ==>
               s.db.nextFile in s'.files.disk.tables &&
               s'.files.disk.tables[s.db.nextFile] == s.files.disk.tables[s.db.nextFile]
    ensures MemsAgree(s') && FlushAgrees(s')
  {
    hide Entries, EntrySet;
  }

  lemma AgreeBy(s: State)
    requires s.files.process.Up? && MemsAgree(s) && FlushAgrees(s) && FilesAgree(s.db.version, s.files.disk)
    requires JobAgrees(s.db, s.outs, s.files.process, s.files.disk) && s.files.acked == s.db.written
    ensures Agree(s)
  {
  }

  lemma AgreeParts(s: State)
    requires Agree(s)
    ensures s.files.process.Up? && MemsAgree(s) && FlushAgrees(s) && FilesAgree(s.db.version, s.files.disk)
    ensures JobAgrees(s.db, s.outs, s.files.process, s.files.disk) && s.files.acked == s.db.written
    ensures s.flushing.None? ==> s.files.process.installing.None?
  {
    hide FilesAgree, MemsAgree, JobAgrees;
  }

  lemma AppendAgrees(s: State, ops: seq<Op>, s': State)
    requires Agree(s) && F.Inv(s.files) && Next(s, Append(ops), s')
    ensures Agree(s')
  {
    hide F.Inv, FilesAgree, JobAgrees, EntrySet, F.Consecutive, Entries;
    SameFiles(s.db.version, s.files.disk, s'.files.disk);
    SameJob(s.db, s.outs, s.files.process, s.files.disk, s'.db, s'.files.process, s'.files.disk);
  }

  lemma CommitIs(s: State, s': State)
    requires Next(s, Commit, s')
    ensures s.writing.Some? && E.WriteStep(s.db, s'.db, s.writing.value)
    ensures var p := s.files.process;
            && p.Up? && s'.files.disk == s.files.disk && s'.files.acked == s.files.acked + EntrySet(p.inFlight)
            && s'.files.process == p.(mem := p.mem + p.inFlight, inFlight := [],
                                      lastSequence := p.lastSequence + |p.inFlight|)
    ensures s'.writing.None? && s'.flushing == s.flushing && s'.outs == s.outs
  {
    hide E.WriteStep;
  }

  lemma CommitAgrees(s: State, s': State)
    requires Agree(s) && F.Inv(s.files) && Next(s, Commit, s')
    ensures Agree(s')
  {
    hide Next, Agree, F.Inv, F.Consecutive, E.WriteStep, E.BatchEntries, EntrySet, FilesAgree, MemsAgree, FlushAgrees;
    hide JobAgrees;
    CommitIs(s, s');
    AgreeParts(s);
    Wrote(s.db, s'.db, s.writing.value);
    CommitMems(s, s');
    SameJob(s.db, s.outs, s.files.process, s.files.disk, s'.db, s'.files.process, s'.files.disk);
    AgreeBy(s');
  }

  lemma CommitMems(s: State, s': State)
    requires s.files.process.Up? && MemsAgree(s) && FlushAgrees(s)
    requires s.writing.Some? && E.WriteStep(s.db, s'.db, s.writing.value) && s.files.acked == s.db.written
    requires s'.writing.None? && s'.flushing == s.flushing
    requires var p := s.files.process;
             && s'.files.disk == s.files.disk && s'.files.acked == s.files.acked + EntrySet(p.inFlight)
             && s'.files.process == p.(mem := p.mem + p.inFlight, inFlight := [],
                                       lastSequence := p.lastSequence + |p.inFlight|)
    ensures MemsAgree(s') && FlushAgrees(s') && s'.files.acked == s'.db.written
  {
    hide E.WriteStep, E.BatchEntries, EntrySet, F.Consecutive;
    Wrote(s.db, s'.db, s.writing.value);
    BatchSet(s.db.lastSequence + 1, s.writing.value);
    SetOfBoth(s.files.process.mem, InFlight(s));
    hide BuiltAs;
  }

  lemma SwitchAgrees(s: State, s': State)
    requires Agree(s) && F.Inv(s.files) && Next(s, Other(E.Switch), s')
    ensures Agree(s')
  {
    hide F.Inv, FilesAgree, JobAgrees, EntrySet;
    SameFiles(s.db.version, s.files.disk, s'.files.disk);
    SameJob(s.db, s.outs, s.files.process, s.files.disk, s'.db, s'.files.process, s'.files.disk);
  }

  // Flushes

  lemma EmptyIsEmpty(es: seq<Entry>)
    ensures EntrySet(es) == {} <==> es == []
  {
    if es != [] {
      assert es[0] in EntrySet(es);
    }
  }

  /** The next number is not in use. */
  lemma Unused(s: F.State)
    requires F.Inv(s) && s.process.Up?
    ensures var n := s.process.nextFile; n !in s.process.pending && n !in s.process.built && n !in s.disk.manifest.files
    ensures s.process.built <= s.process.pending
    ensures forall n :: n in s.process.pending ==> n !in s.disk.manifest.files
  {
    assert F.UpOk(s.disk, s.process) && F.TablesOk(s.disk);
    hide F.InTables, F.LogsOk, F.Durable;
  }

  /** The table that is being flushed is complete when its edit is to be logged. */
  lemma Sealed(s: F.State)
    requires F.Inv(s) && s.process.Up? && s.process.installing.Some?
    ensures s.process.imm.Some? && s.process.installing.value !in s.disk.manifest.files
    ensures s.process.imm.value != [] ==> BuiltAs(s.disk, s.process.installing.value, EntrySet(s.process.imm.value))
  {
    assert F.UpOk(s.disk, s.process);
    hide F.Inv, EntrySet;
  }

  lemma StartFlushAgrees(s: State, s': State)
    requires Agree(s) && F.Inv(s.files) && Next(s, StartFlush, s')
    ensures Agree(s')
  {
    Unused(s.files);
    hide F.Inv, FilesAgree, JobAgrees, EntrySet;
    SameFiles(s.db.version, s.files.disk, s'.files.disk);
    SameJob(s.db, s.outs, s.files.process, s.files.disk, s'.db, s'.files.process, s'.files.disk);
  }

  /** Building a table that no version names leaves the files of the version alone. */
  lemma BuildApart(v: Version, d: F.Disk, d': F.Disk, n: nat)
    requires FilesAgree(v, d) && n !in d.manifest.files && d'.manifest == d.manifest
    requires forall t :: t != n && t in d.tables ==> t in d'.tables && d'.tables[t] == d.tables[t]
    ensures FilesAgree(v, d')
  {
    hide OneFile, EntrySet;
    forall l, f | 0 <= l < |v| && f in v[l]
      ensures TableIs(d', f)
    {
      assert TableIs(d, f) && f.number in NumbersOf(v);
    }
  }

  lemma BuildFlushAgrees(s: State, s': State)
    requires Agree(s) && F.Inv(s.files) && Next(s, BuildFlush, s')
    ensures Agree(s')
  {
    Unused(s.files);
    hide F.Inv, FilesAgree, EntrySet;
    BuildApart(s.db.version, s.files.disk, s'.files.disk, s.db.nextFile);
  }

  lemma SealFlushAgrees(s: State, s': State)
    requires Agree(s) && F.Inv(s.files) && Next(s, SealFlush, s')
    ensures Agree(s')
  {
    hide F.Inv, FilesAgree, EntrySet;
    SameFiles(s.db.version, s.files.disk, s'.files.disk);
  }

  lemma FlushedFiles(v: Version, level: nat, f: File, v': Version, d: F.Disk, d': F.Disk)
    requires FilesAgree(v, d) && level < |v| && FlushInstalled(v, level, f, v') && f.number !in d.manifest.files
    requires d'.manifest.files == d.manifest.files + {f.number}
    requires d'.tables == d.tables && TableIs(d, f)
    ensures FilesAgree(v', d')
  {
    hide EntrySet;
    FlushedMembers(v, level, f, v');
    hide FlushInstalled;
    OneMore(v, level, f, v');
    forall l, g | 0 <= l < |v'| && g in v'[l]
      ensures TableIs(d', g)
    {
      assert g in v[l] ==> TableIs(d, g) && g.number in NumbersOf(v);
    }
  }

  lemma FlushedMembers(v: Version, level: nat, f: File, v': Version)
    requires level < |v| && FlushInstalled(v, level, f, v')
    ensures |v'| == |v| && forall l, g :: 0 <= l < |v| ==> (g in v'[l] <==> g in v[l] || (l == level && g == f))
  {
    hide Listed, FreeUpTo;
    assert forall g :: g in [f] <==> g == f;
  }

  /** One more file with its own number. */
  lemma OneMore(v: Version, level: nat, f: File, v': Version)
    requires level < |v| == |v'| && OneFile(v) && f.number !in NumbersOf(v)
    requires forall l, g :: 0 <= l < |v| ==> (g in v'[l] <==> g in v[l] || (l == level && g == f))
    ensures OneFile(v') && NumbersOf(v') == NumbersOf(v) + {f.number}
  {
    assert f in v'[level];
    forall l, g | 0 <= l < |v| && g in v[l]
      ensures g.number in NumbersOf(v) && g in v'[l]
    {
    }
    forall n
      ensures n in NumbersOf(v') <==> n in NumbersOf(v) || n == f.number
    {
    }
  }

  lemma EndFlushAgrees(s: State, level: nat, f: File, s': State)
    requires Agree(s) && F.Inv(s.files) && Next(s, EndFlush(level, f), s')
    ensures Agree(s')
  {
    Sealed(s.files);
    EmptyIsEmpty(s.db.imm.value);
    EmptyIsEmpty(s.files.process.imm.value);
    hide F.Inv, EntrySet, FilesAgree, JobAgrees, FlushInstalled, FileOk;
    if s.db.imm.value == [] {
      SameFiles(s.db.version, s.files.disk, s'.files.disk);
    } else {
      FlushedFiles(s.db.version, level, f, s'.db.version, s.files.disk, s'.files.disk);
    }
    SameJob(s.db, s.outs, s.files.process, s.files.disk, s'.db, s'.files.process, s'.files.disk);
  }

  // Merges and moves

  lemma MovedFiles(v: Version, level: nat, f: File, v': Version, d: F.Disk)
    requires FilesAgree(v, d) && level + 1 < |v| && f in v[level] && MergeInstalled(v, level, [f], [], [f], v')
    ensures FilesAgree(v', d)
  {
    hide Listed, TableIs;
    forall l, g | 0 <= l < |v'| && g in v'[l]
      ensures (g == f && l == level + 1) || (g in v[l] && g != f)
    {
      assert g in [f] <==> g == f;
      assert g in v[l] && g.number == f.number ==> l == level;
    }
    forall n
      ensures n in NumbersOf(v') <==> n in NumbersOf(v)
    {
      if n in NumbersOf(v) {
        var l, g :| 0 <= l < |v| && g in v[l] && g.number == n;
        assert g == f ==> f in [f] && g in v'[level + 1];
        assert g != f ==> g in v'[l];
      }
    }
  }

  lemma MoveIs(s: State, level: nat, f: File, s': State)
    requires Next(s, Other(E.Move(level, f)), s')
    ensures E.MoveStep(s.db, s'.db, level, f) && s'.db == s.db.(version := s'.db.version)
    ensures s.files.process.Up? && s'.files.process == s.files.process.(pending := s.files.process.pending - {},
                                                                        built := s.files.process.built - {})
    ensures s'.files.disk.tables == s.files.disk.tables && s'.files.acked == s.files.acked
    ensures s'.files.disk.manifest.files == s.files.disk.manifest.files - {} + {}
    ensures s'.writing == s.writing && s'.flushing == s.flushing && s'.outs == s.outs
  {
    hide MergeInstalled, Selected;
  }

  lemma MoveAgrees(s: State, level: nat, f: File, s': State)
    requires Agree(s) && Next(s, Other(E.Move(level, f)), s')
    ensures Agree(s')
  {
    MoveIs(s, level, f, s');
    assert f in [f] && PickedFrom(s.db.version[level], [f]);
    hide Next, Agree, FilesAgree, MemsAgree, FlushAgrees, JobAgrees, MergeInstalled, Selected;
    AgreeParts(s);
    MovedFiles(s.db.version, level, f, s'.db.version, s.files.disk);
    SameFiles(s'.db.version, s.files.disk, s'.files.disk);
    MemsKept(s, s');
    SameJob(s.db, s.outs, s.files.process, s.files.disk, s'.db, s'.files.process, s'.files.disk);
    AgreeBy(s');
  }

  lemma NumberIs(s: State, s': State)
    requires Next(s, Other(E.Number), s')
    ensures s.flushing.None? && s.db.job.Some? && s.files.process.Up?
    ensures s'.db == s.db.(job := Some(s.db.job.value.(numbers := s.db.job.value.numbers + [s.db.nextFile])),
                           nextFile := s.db.nextFile + 1)
    ensures var p := s.files.process;
            s'.files == s.files.(process := p.(pending := p.pending + {p.nextFile}, nextFile := p.nextFile + 1))
    ensures s'.writing == s.writing && s'.flushing == s.flushing && s'.outs == s.outs
  {
  }

  lemma NumberAgrees(s: State, s': State)
    requires Agree(s) && F.Inv(s.files) && Next(s, Other(E.Number), s')
    ensures Agree(s')
  {
    hide Next, Agree, F.Inv, FilesAgree, FlushAgrees, JobAgrees, EntrySet, Entries;
    NumberIs(s, s');
    AgreeParts(s);
    assert s.files.process.nextFile == s.db.nextFile;
    hide MemsAgree;
    Unused(s.files);
    MemsKept(s, s');
    NumberJob(s, s');
    SameFiles(s.db.version, s.files.disk, s'.files.disk);
    AgreeBy(s');
  }

  lemma NumberJob(s: State, s': State)
    requires s.files.process.Up? && s'.files.process.Up? && s.db.job.Some?
    requires JobAgrees(s.db, s.outs, s.files.process, s.files.disk) && s.db.nextFile !in s.files.process.built
    requires s'.db.job == Some(s.db.job.value.(numbers := s.db.job.value.numbers + [s.db.nextFile]))
    requires s'.db.nextFile == s.db.nextFile + 1 && s'.outs == s.outs && s'.files.disk == s.files.disk
    requires s'.files.process.pending == s.files.process.pending + {s.db.nextFile}
    requires s'.files.process.built == s.files.process.built
    ensures JobAgrees(s'.db, s'.outs, s'.files.process, s'.files.disk)
  {
    hide TableIs;
  }

  lemma AbandonAgrees(s: State, s': State)
    requires Agree(s) && Next(s, Other(E.Abandon), s')
    ensures Agree(s')
  {
    hide FilesAgree, EntrySet;
    SameFiles(s.db.version, s.files.disk, s'.files.disk);
  }

  /** Nothing happens on disk. */
  lemma QuietIs(s: State, a: E.Action, s': State)
    requires Next(s, Other(a), s') && (a.Begin? || a.Snapshot? || a.Release?)
    ensures s'.db.mem == s.db.mem && s'.db.imm == s.db.imm && s'.db.version == s.db.version
    ensures s'.db.nextFile == s.db.nextFile && s'.db.lastSequence == s.db.lastSequence
    ensures s'.db.written == s.db.written && s'.files == s.files
    ensures s'.writing == s.writing && s'.flushing == s.flushing && s'.outs == s.outs
    ensures if a.Begin? then s.db.job.None? && s'.db.job.Some? && s'.db.job.value.numbers == []
            else s'.db.job == s.db.job
  {
    hide Selected, E.IsOldest;
  }

  lemma QuietAgrees(s: State, a: E.Action, s': State)
    requires Agree(s) && Next(s, Other(a), s') && (a.Begin? || a.Snapshot? || a.Release?)
    ensures Agree(s')
  {
    hide Next, Agree, FilesAgree, MemsAgree, FlushAgrees;
    QuietIs(s, a, s');
    AgreeParts(s);
    MemsKept(s, s');
    AgreeBy(s');
  }

  lemma BuildOutputAgrees(s: State, o: File, s': State)
    requires Agree(s) && F.Inv(s.files) && Next(s, BuildOutput(o), s')
    ensures Agree(s')
  {
    Unused(s.files);
    var ns := s.db.job.value.numbers;
    assert o.number == ns[|s.outs|] && o.number in ns;
    hide F.Inv, FilesAgree, EntrySet;
    BuildApart(s.db.version, s.files.disk, s'.files.disk, o.number);
    forall i | 0 <= i < |s'.outs|
      ensures s'.outs[i].number == ns[i] && TableIs(s'.files.disk, s'.outs[i])
    {
      assert i < |s.outs| ==> TableIs(s.files.disk, s.outs[i]);
    }
  }

  ghost predicate Distinct(outs: seq<File>)
  {
    forall i, j :: 0 <= i < j < |outs| ==> outs[i].number != outs[j].number
  }

  /** The files after a merge's outputs have replaced its inputs. */
  lemma InstalledFiles(v: Version, level: nat, in0: seq<File>, in1: seq<File>, outs: seq<File>, v': Version, d: F.Disk,
                       d': F.Disk)
    requires FilesAgree(v, d) && level + 1 < |v| && MergeInstalled(v, level, in0, in1, outs, v')
    requires (forall f :: f in in0 ==> f in v[level]) && (forall f :: f in in1 ==> f in v[level + 1])
    requires Distinct(outs) && forall o :: o in outs ==> TableIs(d, o) && o.number !in d.manifest.files
    requires d'.tables == d.tables && d'.manifest.files == d.manifest.files - NumbersIn(in0 + in1) + NumbersIn(outs)
    ensures FilesAgree(v', d')
  {
    hide Listed, EntrySet;
    forall l, g | 0 <= l < |v'| && g in v'[l]
      ensures InstalledAt(v, level, in0, in1, outs, l, g)
      ensures TableIs(d', g)
    {
      assert g in v[l] ==> TableIs(d, g);
    }
    OneInstalled(v, level, in0, in1, outs, v', d);
    forall n
      ensures n in NumbersOf(v') <==> n in d'.manifest.files
    {
      InstalledNumber(v, level, in0, in1, outs, v', d, n);
    }
  }

  /** Where a file of the new version comes from. */
  ghost predicate InstalledAt(v: Version, level: nat, in0: seq<File>, in1: seq<File>, outs: seq<File>, l: nat, g: File)
  {
    l < |v| && ((l == level + 1 && g in outs) ||
                (g in v[l] && !(l == level && g in in0) && !(l == level + 1 && g in in1)))
  }

  lemma OneInstalled(v: Version, level: nat, in0: seq<File>, in1: seq<File>, outs: seq<File>, v': Version, d: F.Disk)
    requires FilesAgree(v, d) && |v'| == |v| && Distinct(outs)
    requires forall o :: o in outs ==> o.number !in d.manifest.files
    requires forall l, g :: 0 <= l < |v'| && g in v'[l] ==> InstalledAt(v, level, in0, in1, outs, l, g)
    ensures OneFile(v')
  {
    forall l, m, f, g | 0 <= l < |v'| && 0 <= m < |v'| && f in v'[l] && g in v'[m] && f.number == g.number
      ensures l == m && f == g
    {
      assert InstalledAt(v, level, in0, in1, outs, l, f) && InstalledAt(v, level, in0, in1, outs, m, g);
      assert f in v[l] ==> f.number in NumbersOf(v);
      assert g in v[m] ==> g.number in NumbersOf(v);
      if f in outs && g in outs {
        var i :| 0 <= i < |outs| && outs[i] == f;
        var j :| 0 <= j < |outs| && outs[j] == g;
        assert i == j;
      }
    }
  }

  /** A file that stays shares no number with an input. */
  lemma NotInput(v: Version, level: nat, in0: seq<File>, in1: seq<File>, l: nat, g: File, f: File)
    requires OneFile(v) && level + 1 < |v| && l < |v| && g in v[l] && !(l == level && g in in0)
    requires !(l == level + 1 && g in in1)
    requires (forall f :: f in in0 ==> f in v[level]) && (forall f :: f in in1 ==> f in v[level + 1])
    requires f in in0 || f in in1
    ensures f.number != g.number
  {
  }

  lemma InstalledNumber(v: Version, level: nat, in0: seq<File>, in1: seq<File>, outs: seq<File>, v': Version,
                        d: F.Disk, n: nat)
    requires FilesAgree(v, d) && level + 1 < |v| && MergeInstalled(v, level, in0, in1, outs, v')
    requires (forall f :: f in in0 ==> f in v[level]) && (forall f :: f in in1 ==> f in v[level + 1])
    requires forall o :: o in outs ==> o.number !in d.manifest.files
    ensures n in NumbersOf(v') <==> n in d.manifest.files - NumbersIn(in0 + in1) + NumbersIn(outs)
  {
    hide Listed, TableIs, OneFile;
    if n in NumbersOf(v') {
      var l, g :| 0 <= l < |v'| && g in v'[l] && g.number == n;
      if !(l == level + 1 && g in outs) {
        assert g in v[l] && n in NumbersOf(v);
        forall f | f in in0 + in1
          ensures f.number != n
        {
          NotInput(v, level, in0, in1, l, g, f);
        }
      }
    }
    if n in NumbersIn(outs) {
      var o :| o in outs && o.number == n;
      assert o in v'[level + 1];
    } else if n in d.manifest.files - NumbersIn(in0 + in1) {
      var l, g :| 0 <= l < |v| && g in v[l] && g.number == n;
      assert g in in0 || g in in1 ==> g in in0 + in1;
      assert g in v'[l];
    }
  }

  /** What the outputs hold is in the tables of the inputs. */
  lemma OutputsInInputs(d: F.Disk, in0: seq<File>, in1: seq<File>, input: seq<Entry>, outs: seq<File>)
    requires IsInput(in0, in1, input) && (forall f :: f in in0 || f in in1 ==> TableIs(d, f))
    requires forall o, e :: o in outs && e in o.entries ==> e in input
    requires forall o :: o in outs ==> TableIs(d, o)
    ensures forall t, e :: t in NumbersIn(outs) && t in d.tables && e in d.tables[t] ==>
                             F.InTables(d, NumbersIn(in0 + in1), e)
  {
    forall t, e | t in NumbersIn(outs) && t in d.tables && e in d.tables[t]
      ensures F.InTables(d, NumbersIn(in0 + in1), e)
    {
      var o :| o in outs && o.number == t;
      assert TableIs(d, o) && e in o.entries && e in input;
      var f :| (f in in0 || f in in1) && e in f.entries;
      assert TableIs(d, f) && f in in0 + in1;
      assert f.number in NumbersIn(in0 + in1) && e in d.tables[f.number];
    }
  }

  /** The inputs of the running merge are still files of the version. */
  lemma InputsThere(db: E.State)
    requires E.Structure(db) && db.job.Some?
    ensures var j := db.job.value;
            && j.level + 1 < |db.version| && (forall f :: f in j.in0 ==> f in db.version[j.level])
            && (forall f :: f in j.in1 ==> f in db.version[j.level + 1])
  {
    var j := db.job.value;
    assert E.JobOk(db, j);
    hide VersionOk, AllEntries, E.UpTo, Unique, NewerThan, Merged;
    assert PickedFrom(j.base[j.level], j.in0) && PickedFrom(j.base[j.level + 1], j.in1);
  }

  lemma OutNumbers(s: State, input: seq<Entry>)
    requires Agree(s) && F.Inv(s.files) && s.db.job.Some? && E.Outputs(s.db.job.value, input, s.outs)
    ensures Distinct(s.outs) && forall o, e :: o in s.outs && e in o.entries ==> e in input
    ensures forall o :: o in s.outs ==>
                          TableIs(s.files.disk, o) && o.number in s.files.process.built &&
                          o.number !in s.files.disk.manifest.files
  {
    var j := s.db.job.value;
    LoopOutputs(input, s.outs, j.oldest, BaseOf(j.base, j.level));
    Unused(s.files);
    hide F.Inv, IsInput, Chain, Kept, FilesAgree, MemsAgree, FlushAgrees, TableIs;
    forall o | o in s.outs
      ensures TableIs(s.files.disk, o) && o.number in s.files.process.built
    {
      var i :| 0 <= i < |s.outs| && s.outs[i] == o;
      assert j.numbers[i] in s.files.process.built;
    }
  }

  lemma InputTables(db: E.State, d: F.Disk, input: seq<Entry>, outs: seq<File>)
    requires db.job.Some? && E.Outputs(db.job.value, input, outs) && FilesAgree(db.version, d)
    requires db.job.value.level + 1 < |db.version|
    requires (forall f :: f in db.job.value.in0 ==> f in db.version[db.job.value.level])
    requires (forall f :: f in db.job.value.in1 ==> f in db.version[db.job.value.level + 1])
    requires (forall o, e :: o in outs && e in o.entries ==> e in input) && forall o :: o in outs ==> TableIs(d, o)
    ensures var inputs := NumbersIn(db.job.value.in0 + db.job.value.in1);
            && inputs <= d.manifest.files
            && forall t, e :: t in NumbersIn(outs) && t in d.tables && e in d.tables[t] ==> F.InTables(d, inputs, e)
  {
    var j := db.job.value;
    assert IsInput(j.in0, j.in1, input);
    hide E.Outputs, IsInput, OneFile, TableIs;
    forall f | f in j.in0 || f in j.in1
      ensures TableIs(d, f) && f.number in NumbersOf(db.version)
    {
      assert f in db.version[j.level] || f in db.version[j.level + 1];
    }
    forall n | n in NumbersIn(j.in0 + j.in1)
      ensures n in d.manifest.files
    {
      var f :| f in j.in0 + j.in1 && f.number == n;
    }
    OutputsInInputs(d, j.in0, j.in1, input, outs);
  }

  lemma EndMergeIs(s: State, input: seq<Entry>, s': State)
    requires Next(s, EndMerge(input), s')
    ensures s.flushing.None? && s.db.job.Some? && E.InstallStep(s.db, s'.db, input, s.outs)
    ensures var j := s.db.job.value;
            var inputs, outputs := NumbersIn(j.in0 + j.in1), NumbersIn(s.outs);
            var d, d', p, p' := s.files.disk, s'.files.disk, s.files.process, s'.files.process;
            && p.Up? && p' == p.(pending := p.pending - outputs, built := p.built - outputs)
            && d'.tables == d.tables && d'.manifest.files == d.manifest.files - inputs + outputs
            && s'.files.acked == s.files.acked
    ensures s'.writing == s.writing && s'.flushing.None? && s'.outs == []
    ensures s'.db == s.db.(version := s'.db.version, job := None)
  {
    hide E.Outputs, MergeInstalled, NumbersIn;
  }

  lemma EndMergeAgrees(s: State, input: seq<Entry>, s': State)
    requires Agree(s) && F.Inv(s.files) && E.Structure(s.db) && Next(s, EndMerge(input), s')
    ensures Agree(s')
  {
    hide Next, Agree, F.Inv, E.Structure, E.InstallStep, FilesAgree, MemsAgree, FlushAgrees, NumbersIn;
    EndMergeIs(s, input, s');
    AgreeParts(s);
    EndMergeFiles(s, input, s'.db, s'.files.disk);
    MemsKept(s, s');
    AgreeBy(s');
  }

  /** What the outputs replace is there. */
  lemma EndMergeFiles(s: State, input: seq<Entry>, db': E.State, d': F.Disk)
    requires Agree(s) && F.Inv(s.files) && E.Structure(s.db) && E.InstallStep(s.db, db', input, s.outs)
    requires d'.tables == s.files.disk.tables
    requires d'.manifest.files == s.files.disk.manifest.files
                                  - NumbersIn(s.db.job.value.in0 + s.db.job.value.in1) + NumbersIn(s.outs)
    ensures FilesAgree(db'.version, d')
  {
    var j := s.db.job.value;
    hide Agree, F.Inv, E.Structure, EntrySet, Distinct, NumbersIn, MergeInstalled, E.Outputs, FilesAgree, TableIs;
    InputsThere(s.db);
    OutNumbers(s, input);
    AgreeParts(s);
    InstalledFiles(s.db.version, j.level, j.in0, j.in1, s.outs, db'.version, s.files.disk, d');
  }

  // Cleaning up

  lemma CleanAgrees(s: State, f: F.Step, s': State)
    requires Agree(s) && F.Inv(s.files) && Next(s, Clean(f), s')
    ensures Agree(s')
  {
    assert F.UpOk(s.files.disk, s.files.process);
    assert s.files.process.built <= s.files.process.pending;
    hide F.Inv, F.UpOk, FilesAgree, JobAgrees, EntrySet;
    CleanFiles(s.db.version, s.files, f);
    SameJob(s.db, s.outs, s.files.process, s.files.disk, s'.db, s'.files.process, s'.files.disk);
  }

  lemma CleanFiles(v: Version, s: F.State, f: F.Step)
    requires FilesAgree(v, s.disk) && F.Enabled(s, f) && (f.Pin? || f.Unpin? || f.DeleteTable? || f.DeleteLog?)
    ensures FilesAgree(v, F.Do(s, f).disk)
  {
    hide OneFile, EntrySet;
    forall l, g | 0 <= l < |v| && g in v[l]
      ensures TableIs(F.Do(s, f).disk, g)
    {
      assert TableIs(s.disk, g) && g.number in NumbersOf(v);
    }
  }

  // All steps

  /** Whatever comes between what: after every step the files hold what the engine's state says. */
  lemma StepAgrees(s: State, step: Step, s': State)
    requires Agree(s) && F.Inv(s.files) && E.Structure(s.db) && Next(s, step, s')
    ensures Agree(s') && F.Inv(s'.files)
  {
    hide Agree, F.Inv, E.Structure, F.Enabled, F.Do, EngineMay;
    if OnDisk(s, step).Some? {
      F.StepKeeps(s.files, OnDisk(s, step).value);
    }
    hide Next;
    match step
    case Append(ops) => AppendAgrees(s, ops, s');
    case Commit => CommitAgrees(s, s');
    case StartFlush => StartFlushAgrees(s, s');
    case BuildFlush => BuildFlushAgrees(s, s');
    case SealFlush => SealFlushAgrees(s, s');
    case EndFlush(level, f) => EndFlushAgrees(s, level, f, s');
    case BuildOutput(o) => BuildOutputAgrees(s, o, s');
    case EndMerge(input) => EndMergeAgrees(s, input, s');
    case Other(a) => OtherAgrees(s, a, s');
    case Clean(f) => CleanAgrees(s, f, s');
  }

  lemma OtherAgrees(s: State, a: E.Action, s': State)
    requires Agree(s) && F.Inv(s.files) && Next(s, Other(a), s')
    ensures Agree(s')
  {
    assert Ready(s, Other(a));
    hide Agree, F.Inv, Next;
    match a
    case Switch => SwitchAgrees(s, s');
    case Move(level, f) => MoveAgrees(s, level, f, s');
    case Number => NumberAgrees(s, s');
    case Abandon => AbandonAgrees(s, s');
    case _ => QuietAgrees(s, a, s');
  }

  /** Whatever the engine may do, its files allow. */
  lemma FilesAllow(s: State, step: Step, db': E.State)
    requires Agree(s) && F.Inv(s.files) && E.Structure(s.db) && Ready(s, step) && EngineMay(s, step, db')
    ensures exists s' :: Next(s, step, s') && s'.db == db'
  {
    var f := OnDisk(s, step);
    if f.Some? {
      Allowed(s, step, db');
    }
    var writing, flushing, outs := WritingAfter(s, step), FlushingAfter(s, step), OutsAfter(s, step);
    hide Agree, F.Inv, E.Structure, Ready, E.Next, F.Enabled, F.Do, OnDisk, InEngine;
    hide WritingAfter, FlushingAfter, OutsAfter;
    var s' := State(db', if f.None? then s.files else F.Do(s.files, f.value), writing, flushing, outs);
    assert Next(s, step, s');
  }

  lemma Allowed(s: State, step: Step, db': E.State)
    requires Agree(s) && F.Inv(s.files) && E.Structure(s.db) && Ready(s, step) && EngineMay(s, step, db')
    requires OnDisk(s, step).Some?
    ensures F.Enabled(s.files, OnDisk(s, step).value)
  {
    hide Agree, F.Inv, E.Structure, F.Enabled;
    match step
    case Append(ops) => AppendAllowed(s, ops);
    case SealFlush => SealAllowed(s);
    case BuildOutput(o) => BuildAllowed(s, o);
    case EndMerge(input) => MergeAllowed(s, input, db');
    case Other(a) => OtherAllowed(s, a, db');
    case Clean(_) =>
    case _ => FlushAllowed(s, step);
  }

  lemma AppendAllowed(s: State, ops: seq<Op>)
    requires Agree(s) && F.Inv(s.files) && Ready(s, Append(ops))
    ensures F.Enabled(s.files, F.Append(Entries(s.db.lastSequence + 1, ops)))
  {
    BatchSet(s.db.lastSequence + 1, ops);
    assert F.UpOk(s.files.disk, s.files.process);
    hide F.Inv, FilesAgree, JobAgrees, FlushAgrees, Entries, F.Consecutive;
  }

  lemma SealAllowed(s: State)
    requires Agree(s) && F.Inv(s.files) && Ready(s, SealFlush)
    ensures F.Enabled(s.files, F.Unprotect(s.db.nextFile))
  {
    EmptyIsEmpty(s.db.imm.value);
    EmptyIsEmpty(s.files.process.imm.value);
    Unused(s.files);
    hide F.Inv, FilesAgree, JobAgrees, EntrySet;
  }

  lemma BuildAllowed(s: State, o: File)
    requires Agree(s) && Ready(s, BuildOutput(o))
    ensures F.Enabled(s.files, F.Build(o.number, EntrySet(o.entries)))
  {
    var ns := s.db.job.value.numbers;
    assert ns[|s.outs|] in ns;
    hide FilesAgree, MemsAgree, FlushAgrees;
  }

  lemma FlushAllowed(s: State, step: Step)
    requires Agree(s) && Ready(s, step) && OnDisk(s, step).Some?
    requires step.Commit? || step.StartFlush? || step.BuildFlush? || step.EndFlush?
    ensures F.Enabled(s.files, OnDisk(s, step).value)
  {
    hide FilesAgree, JobAgrees, EntrySet;
  }

  lemma OtherAllowed(s: State, a: E.Action, db': E.State)
    requires Agree(s) && Ready(s, Other(a)) && E.Next(s.db, a, db') && OnDisk(s, Other(a)).Some?
    ensures F.Enabled(s.files, OnDisk(s, Other(a)).value)
  {
    hide FilesAgree, E.MoveStep;
  }

  lemma MergeAllowed(s: State, input: seq<Entry>, db': E.State)
    requires Agree(s) && F.Inv(s.files) && E.Structure(s.db) && s.flushing.None? && s.db.job.Some?
    requires E.InstallStep(s.db, db', input, s.outs)
    ensures var j := s.db.job.value;
            F.Enabled(s.files, F.InstallCompaction(NumbersIn(j.in0 + j.in1), NumbersIn(s.outs)))
  {
    hide Agree, F.Inv, E.Structure, EntrySet, Distinct, MergeInstalled, E.Outputs, FilesAgree, TableIs, F.InTables;
    InputsThere(s.db);
    OutNumbers(s, input);
    AgreeParts(s);
    InputTables(s.db, s.files.disk, input, s.outs);
    forall n | n in NumbersIn(s.outs)
      ensures n in s.files.process.built
    {
      var o :| o in s.outs && o.number == n;
    }
  }

  // One action after another

  /** Steps lead from one state to another. */
  ghost predicate Leads(s: State, steps: seq<Step>, s': State)
    decreases |steps|
  {
    if steps == [] then s' == s else exists m :: Next(s, steps[0], m) && Leads(m, steps[1..], s')
  }

  ghost predicate Idle(s: State)
  {
    s.writing.None? && s.flushing.None?
  }

  lemma StepLeads(s: State, step: Step, s': State)
    requires Next(s, step, s')
    ensures Leads(s, [step], s')
  {
    hide Next;
    assert [step][1..] == [] && Leads(s', [], s');
  }

  lemma {:induction false} LeadsOn(s: State, a: seq<Step>, m: State, b: seq<Step>, s': State)
    requires Leads(s, a, m) && Leads(m, b, s')
    ensures Leads(s, a + b, s')
    decreases |a|
  {
    hide Next;
    if a == [] {
      assert a + b == b;
    } else {
      var n :| Next(s, a[0], n) && Leads(n, a[1..], m);
      LeadsOn(n, a[1..], m, b, s');
      assert (a + b)[0] == a[0] && (a + b)[1..] == a[1..] + b;
    }
  }

  lemma AfterIs(s: State, step: Step, s': State)
    requires Next(s, step, s')
    ensures s'.writing == WritingAfter(s, step) && s'.flushing == FlushingAfter(s, step)
    ensures s'.outs == OutsAfter(s, step)
  {
    hide Ready, EngineMay, F.Enabled, F.Do;
  }

  /** One more step on the way. */
  lemma Onwards(s: State, steps: seq<Step>, m: State, step: Step, db': E.State) returns (s': State)
    requires Leads(s, steps, m) && Agree(m) && F.Inv(m.files) && E.Structure(m.db) && Ready(m, step)
    requires EngineMay(m, step, db')
    ensures Leads(s, steps + [step], s') && Agree(s') && F.Inv(s'.files) && Next(m, step, s') && s'.db == db'
    ensures s'.writing == WritingAfter(m, step) && s'.flushing == FlushingAfter(m, step)
    ensures s'.outs == OutsAfter(m, step)
  {
    hide Agree, F.Inv, E.Structure, Ready, EngineMay, Next, Leads;
    FilesAllow(m, step, db');
    s' :| Next(m, step, s') && s'.db == db';
    StepAgrees(m, step, s');
    StepLeads(m, step, s');
    LeadsOn(s, steps, m, [step], s');
    AfterIs(m, step, s');
  }

  function BuildSteps(outs: seq<File>): seq<Step>
  {
    seq(|outs|, i requires 0 <= i < |outs| => BuildOutput(outs[i]))
  }

  /** The outputs of a merge can be built one after another. */
  lemma {:induction false} BuildAll(s: State, outs: seq<File>) returns (s': State)
    requires Agree(s) && F.Inv(s.files) && E.Structure(s.db) && Idle(s) && s.db.job.Some? && s.outs == []
    requires |outs| <= |s.db.job.value.numbers|
    requires forall i :: 0 <= i < |outs| ==> outs[i].number == s.db.job.value.numbers[i]
    ensures Leads(s, BuildSteps(outs), s')
    ensures Agree(s') && F.Inv(s'.files) && Idle(s') && s'.db == s.db && s'.outs == outs
    decreases |outs|
  {
    hide Agree, F.Inv, E.Structure, F.Enabled, F.Do, Next;
    if outs == [] {
      s' := s;
      Stays(s);
      assert BuildSteps(outs) == [];
    } else {
      hide Leads;
      var front, o := outs[..|outs| - 1], outs[|outs| - 1];
      var m := BuildAll(s, front);
      s' := Onwards(s, BuildSteps(front), m, BuildOutput(o), s.db);
      assert BuildSteps(outs) == BuildSteps(front) + [BuildOutput(o)];
      assert front + [o] == outs;
    }
  }

  /** Every action of the engine can be carried out: with nothing under way, steps lead to its new state. */
  lemma Carried(s: State, a: E.Action, db': E.State) returns (steps: seq<Step>, s': State)
    requires Agree(s) && F.Inv(s.files) && E.Structure(s.db) && Idle(s) && E.Next(s.db, a, db')
    requires a.Install? ==> s.outs == []
    ensures Leads(s, steps, s') && s'.db == db' && Agree(s') && F.Inv(s'.files) && Idle(s')
  {
    hide Agree, F.Inv, E.Structure, E.Next, Leads;
    match a
    case Write(ops) => steps, s' := WriteCarried(s, ops, db');
    case Flush(level, f) => steps, s' := FlushCarried(s, level, f, db');
    case Install(input, outs) => steps, s' := InstallCarried(s, input, outs, db');
    case _ => steps, s' := OtherCarried(s, a, db');
  }

  lemma Stays(s: State)
    ensures Leads(s, [], s)
  {
  }

  lemma OtherCarried(s: State, a: E.Action, db': E.State) returns (steps: seq<Step>, s': State)
    requires Agree(s) && F.Inv(s.files) && E.Structure(s.db) && Idle(s) && E.Next(s.db, a, db')
    requires !a.Write? && !a.Flush? && !a.Install?
    ensures Leads(s, steps, s') && s'.db == db' && Agree(s') && F.Inv(s'.files) && Idle(s')
  {
    hide Agree, F.Inv, E.Structure, E.Next, F.Enabled, F.Do;
    Stays(s);
    hide Leads;
    s' := Onwards(s, [], s, Other(a), db');
    steps := [] + [Other(a)];
  }

  lemma WriteFits(db: E.State, ops: seq<Op>, db': E.State)
    requires E.Next(db, E.Write(ops), db')
    ensures db.lastSequence + |ops| < MAX_SEQUENCE
  {
    hide Merged, E.BatchEntries;
  }

  lemma WriteCarried(s: State, ops: seq<Op>, db': E.State) returns (steps: seq<Step>, s': State)
    requires Agree(s) && F.Inv(s.files) && E.Structure(s.db) && Idle(s) && E.Next(s.db, E.Write(ops), db')
    ensures Leads(s, steps, s') && s'.db == db' && Agree(s') && F.Inv(s'.files) && Idle(s')
  {
    hide Agree, F.Inv, E.Structure, E.Next, F.Enabled, F.Do, Next, Leads;
    WriteFits(s.db, ops, db');
    Stays(s);
    var m := Onwards(s, [], s, Append(ops), s.db);
    s' := Onwards(s, [] + [Append(ops)], m, Commit, db');
    steps := [] + [Append(ops)] + [Commit];
  }

  lemma OutputNumbers(db: E.State, input: seq<Entry>, outs: seq<File>, db': E.State)
    requires E.Next(db, E.Install(input, outs), db')
    ensures db.job.Some? && |outs| == |db.job.value.numbers|
    ensures forall i :: 0 <= i < |outs| ==> outs[i].number == db.job.value.numbers[i]
  {
    hide MergeInstalled, IsInput, Chain, Kept;
  }

  lemma InstallCarried(s: State, input: seq<Entry>, outs: seq<File>, db': E.State)
    returns (steps: seq<Step>, s': State)
    requires Agree(s) && F.Inv(s.files) && E.Structure(s.db) && Idle(s) && s.outs == []
    requires E.Next(s.db, E.Install(input, outs), db')
    ensures Leads(s, steps, s') && s'.db == db' && Agree(s') && F.Inv(s'.files) && Idle(s')
  {
    hide Agree, F.Inv, E.Structure, E.Next, F.Enabled, F.Do, Leads, Next, BuildSteps;
    OutputNumbers(s.db, input, outs, db');
    var m := BuildAll(s, outs);
    steps := BuildSteps(outs);
    assert InEngine(m, EndMerge(input)) == Some(E.Install(input, outs));
    s' := Onwards(s, steps, m, EndMerge(input), db');
    steps := steps + [EndMerge(input)];
  }

  /** From each stage of a flush the next can be reached. */
  lemma Started(s: State, m: State)
    requires Agree(s) && F.Inv(s.files) && Next(s, StartFlush, m)
    ensures Ready(m, if s.db.imm == Some([]) then SealFlush else BuildFlush) && m.db == s.db
  {
    AgreeParts(s);
    Unused(s.files);
    hide Agree, F.Inv, MemsAgree, JobAgrees, FilesAgree;
    assert s.files.process.nextFile == s.db.nextFile by {
      assert MemsAgree(s);
    }
  }

  lemma BuiltNow(s: State, m: State)
    requires Next(s, BuildFlush, m)
    ensures Ready(m, SealFlush)
  {
    hide EntrySet;
  }

  lemma SealedNow(s: State, m: State, level: nat, f: File)
    requires Next(s, SealFlush, m)
    ensures Ready(m, EndFlush(level, f))
  {
  }

  lemma FlushCarried(s: State, level: nat, f: File, db': E.State) returns (steps: seq<Step>, s': State)
    requires Agree(s) && F.Inv(s.files) && E.Structure(s.db) && Idle(s) && E.Next(s.db, E.Flush(level, f), db')
    ensures Leads(s, steps, s') && s'.db == db' && Agree(s') && F.Inv(s'.files) && Idle(s')
  {
    assert s.db.imm.Some?;
    Stays(s);
    assert Ready(s, StartFlush);
    hide Agree, F.Inv, E.Structure, Leads, E.Next, Next, Ready, OnDisk;
    var m := Onwards(s, [], s, StartFlush, s.db);
    Started(s, m);
    steps := [] + [StartFlush];
    if s.db.imm != Some([]) {
      var n := Onwards(s, steps, m, BuildFlush, s.db);
      BuiltNow(m, n);
      steps, m := steps + [BuildFlush], n;
    }
    steps, s' := SealCarried(s, steps, m, level, f, db');
  }

  lemma SealCarried(s: State, before: seq<Step>, m: State, level: nat, f: File, db': E.State)
    returns (steps: seq<Step>, s': State)
    requires Leads(s, before, m) && Agree(m) && F.Inv(m.files) && E.Structure(m.db) && Ready(m, SealFlush)
    requires m.writing.None? && E.Next(m.db, E.Flush(level, f), db')
    ensures Leads(s, steps, s') && s'.db == db' && Agree(s') && F.Inv(s'.files) && Idle(s')
  {
    hide Agree, F.Inv, E.Structure, Leads, E.Next, Next, Ready, OnDisk;
    var n := Onwards(s, before, m, SealFlush, m.db);
    SealedNow(m, n, level, f);
    steps := before + [SealFlush];
    s' := Onwards(s, steps, n, EndFlush(level, f), db');
    steps := steps + [EndFlush(level, f)];
  }
}
