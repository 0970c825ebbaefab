/**
 Reading after crashes. The engine runs together with its files, one step at a time; it may crash
 between any two steps, and again while it recovers. The database that recovery opens reads what
 was written: every acknowledged batch, and the batch in flight if its record had reached the log.
 */
module CrashReads {
  import opened Keys
  import opened Reads
  import opened Drops
  import opened Versions
  import opened Installs
  import opened Listings
  import opened WriteBatches
  import opened Histories
  import opened DiskSteps

  /** A step that only brings recovery nearer its end, or starts it again. */
  ghost predicate Recovering(step: F.Step)
  {
    step.Crash? || step.StartOpen? || step.ReplayLog?
  }

  /** The entries of the batch that is in the log but not yet in the memtable. */
  ghost function Logged(s: State): set<Entry>
  {
    if s.writing.Some? then E.BatchEntries(s.writing.value, s.db.lastSequence + 1) else {}
  }

  function InWriting(s: State): seq<Op>
  {
    if s.writing.Some? then s.writing.value else []
  }

  /** The files that recovery makes from the logs, one for each of its new tables. */
  ghost predicate Restores(d: F.Disk, made: set<nat>, restored: seq<File>)
  {
    && NumbersIn(restored) == made && Distinct(restored)
    && forall f :: f in restored ==> FileOk(f) && TableIs(d, f)
  }

  /** The engine as it is opened: an empty memtable, and the restored files on level 0. */
  ghost predicate Opened(db: E.State, more: set<Entry>, opening: F.State, restored: seq<File>, db': E.State)
  {
    && opening.process.Opening? && |db.version| == |db'.version| && |db.version| > 0
    && Restores(opening.disk, opening.process.made, restored)
    && Relisted(db.version[0], [], restored, db'.version[0])
    && (forall l :: 1 <= l < |db.version| ==> db'.version[l] == db.version[l])
    && db' == E.State([], None, db'.version, None, opening.process.lastSequence, multiset{},
                      opening.process.nextFile + 1, db.written + more)
  }

  datatype Event =
    | Did(step: Step)
    | Crash(recovery: seq<F.Step>, opening: F.State, restored: seq<File>)

  ghost predicate Happens(s: State, e: Event, s': State)
  {
    match e
    case Did(step) => Next(s, step, s')
    case Crash(recovery, opening, restored) =>
      && F.RunsTo(s.files, recovery, opening) && (forall r :: r in recovery ==> Recovering(r))
      && F.Enabled(opening, F.FinishOpen) && s'.files == F.Do(opening, F.FinishOpen)
      && Opened(s.db, Logged(s), opening, restored, s'.db)
      && s'.writing.None? && s'.flushing.None? && s'.outs == []
  }

  ghost predicate Good(e: Event, s: State)
  {
    e.Did? && InEngine(s, e.step).Some? ==>
      E.Fits(s.db, InEngine(s, e.step).value) && E.Safe(s.db, InEngine(s, e.step).value)
  }

  /** A new database, just opened. */
  ghost predicate Init(s: State)
  {
    && E.Init(s.db) && s.db.nextFile == 4 && s.writing.None? && s.flushing.None? && s.outs == []
    && exists made :: F.Init(made) && F.RunsTo(made, [F.StartOpen, F.FinishOpen], s.files)
  }

  ghost predicate Inv(s: State)
  {
    Agree(s) && F.Inv(s.files) && E.Structure(s.db) && E.ReadsHistory(s.db) && E.Stored(s.db) <= s.db.written
  }

  // What recovery finds

  /** The disk as far as recovery reads it. */
  ghost predicate Holds(d: F.Disk, d': F.Disk)
  {
    && d'.manifest == d.manifest
    && (forall t :: t in d.manifest.files ==> (t in d.tables <==> t in d'.tables))
    && (forall t :: t in d.manifest.files && t in d.tables ==> d'.tables[t] == d.tables[t])
    && (forall e :: F.Durable(d', e) <==> F.Durable(d, e))
  }

  lemma HoldsOn(a: F.Disk, b: F.Disk, c: F.Disk)
    requires Holds(a, b) && Holds(b, c)
    ensures Holds(a, c)
  {
    hide F.Durable;
  }

  lemma SameHolds(d: F.Disk)
    ensures Holds(d, d)
  {
  }

  lemma RecoverStep(s: F.State, step: F.Step)
    requires F.Inv(s) && F.Enabled(s, step) && Recovering(step)
    ensures F.Inv(F.Do(s, step)) && Holds(s.disk, F.Do(s, step).disk) && F.Do(s, step).acked == s.acked
  {
    F.StepKeeps(s, step);
    if step.ReplayLog? {
      F.ReplayView(s, step.log, step.cuts);
      F.ReplayKeeps(s, step.log, step.cuts);
    }
    hide F.Inv, F.Durable, F.Pieces, F.WithTables, F.CutsOk, F.Needed;
  }

  lemma {:induction false} RecoveryHolds(s: F.State, recovery: seq<F.Step>, s': F.State)
    requires F.Inv(s) && F.RunsTo(s, recovery, s') && forall step :: step in recovery ==> Recovering(step)
    ensures F.Inv(s') && Holds(s.disk, s'.disk) && s'.acked == s.acked
    decreases |recovery|
  {
    hide F.Inv, F.Enabled, F.Do, Holds;
    if recovery == [] {
      SameHolds(s.disk);
    } else {
      assert recovery[0] in recovery;
      var m := F.Do(s, recovery[0]);
      RecoverStep(s, recovery[0]);
      RecoveryHolds(m, recovery[1..], s');
      HoldsOn(s.disk, m.disk, s'.disk);
    }
  }

  /** The tables, the memtables and the batch in flight hold what recovery would find. */
  lemma StoredIsDurable(s: State)
    requires Agree(s) && F.Inv(s.files)
    ensures forall e :: e in E.Stored(s.db) + Logged(s) <==> F.Durable(s.files.disk, e)
  {
    var db, d, p := s.db, s.files.disk, s.files.process;
    F.LiveIsDurable(d, p);
    assert forall e :: e in EntrySet(p.mem) <==> e in p.mem;
    if s.writing.Some? {
      BatchSet(db.lastSequence + 1, s.writing.value);
    }
    hide F.Inv, F.Durable, E.BatchEntries, FlushAgrees, JobAgrees, Entries, F.Consecutive;
    forall e
      ensures e in E.Stored(db) + Logged(s) <==> F.Live(d, p, e)
    {
      VersionInTables(db.version, d, e);
      assert e in p.mem <==> e in EntrySet(db.mem);
      assert p.imm.Some? ==> (e in p.imm.value <==> e in EntrySet(p.imm.value));
      assert e in p.inFlight <==> e in EntrySet(p.inFlight);
    }
  }

  lemma VersionInTables(v: Version, d: F.Disk, e: Entry)
    requires FilesAgree(v, d)
    ensures e in AllEntries(v) <==> F.InTables(d, d.manifest.files, e)
  {
    hide OneFile;
    if e in AllEntries(v) {
      var l, f :| 0 <= l < |v| && f in v[l] && e in f.entries;
      InItsTable(v, d, l, f, e);
    }
    if F.InTables(d, d.manifest.files, e) {
      var t :| t in d.manifest.files && t in d.tables && e in d.tables[t];
      var l, f :| 0 <= l < |v| && f in v[l] && f.number == t;
      hide FilesAgree, NumbersOf;
      assert TableIs(d, f) by {
        InItsTable(v, d, l, f, e);
      }
      assert e in f.entries;
    }
  }

  lemma InItsTable(v: Version, d: F.Disk, l: nat, f: File, e: Entry)
    requires FilesAgree(v, d) && l < |v| && f in v[l]
    ensures TableIs(d, f) && f.number in d.manifest.files
    ensures e in f.entries ==> F.InTables(d, d.manifest.files, e)
  {
    hide OneFile;
    assert TableIs(d, f) && f.number in NumbersOf(v);
    hide FilesAgree, NumbersOf;
    assert e in f.entries ==> e in d.tables[f.number];
  }

  lemma HoldsFiles(v: Version, d: F.Disk, d': F.Disk)
    requires FilesAgree(v, d) && Holds(d, d')
    ensures FilesAgree(v, d')
  {
    hide OneFile, EntrySet, F.Durable;
    forall l, f | 0 <= l < |v| && f in v[l]
      ensures TableIs(d', f)
    {
      assert TableIs(d, f) && f.number in NumbersOf(v);
    }
  }

  // The database that recovery opens

  /** An entry of a restored file comes from a log, one of the version from a table that the manifest names. */
  lemma RestoredEntry(opening: F.State, f: File, e: Entry)
    requires F.Inv(opening) && opening.process.Opening? && TableIs(opening.disk, f) && f.number in opening.process.made
    requires e in f.entries
    ensures F.InLogs(opening.disk, e)
  {
    var d, p := opening.disk, opening.process;
    assert F.InTables(d, p.made, e);
    assert F.OpeningOk(d, p);
    hide F.Inv, F.InTables, F.MadeInOrder;
    var n: nat :| n in p.replayed && n in d.logs && e in d.logs[n];
    assert F.LogHas(d, n, e);
  }

  lemma LogsAreNewer(d: F.Disk, a: Entry, b: Entry)
    requires F.LogsOk(d) && F.InLogs(d, a) && F.InTables(d, d.manifest.files, b)
    ensures b.key.seqno < a.key.seqno
  {
    hide F.InTables, F.LogHas;
  }

  lemma RestoredOverOld(opening: F.State, v: Version, l: nat, f: File, g: File)
    requires F.Inv(opening) && opening.process.Opening? && FilesAgree(v, opening.disk) && l < |v| && g in v[l]
    requires TableIs(opening.disk, f) && f.number in opening.process.made
    ensures Newer(f, g) && g.number < f.number
  {
    var d, p := opening.disk, opening.process;
    assert F.LogsOk(d) && F.TablesOk(d) && F.OpeningOk(d, p);
    forall a, b | a in f.entries && b in g.entries
      ensures a.key.seqno > b.key.seqno
    {
      hide FilesAgree, F.Inv, F.LogsOk, F.TablesOk, F.OpeningOk;
      RestoredEntry(opening, f, a);
      InItsTable(v, d, l, g, b);
      LogsAreNewer(d, a, b);
    }
    InItsTable(v, d, l, g, Entry(g.smallest, []));
    hide FilesAgree, F.LogsOk, F.InTables, F.MadeInOrder;
  }

  lemma RestoredInOrder(opening: F.State, f: File, g: File)
    requires F.Inv(opening) && opening.process.Opening? && TableIs(opening.disk, f) && TableIs(opening.disk, g)
    requires f.number in opening.process.made && g.number in opening.process.made && g.number < f.number
    ensures Newer(f, g)
  {
    var d, p := opening.disk, opening.process;
    assert F.MadeInOrder(d, p.made) by {
      assert F.OpeningOk(d, p);
    }
    forall a, b | a in f.entries && b in g.entries
      ensures a.key.seqno > b.key.seqno
    {
      assert a in d.tables[f.number] && b in d.tables[g.number];
    }
  }

  /** The restored files may lie on level 0. */
  lemma OpenedVersion(v: Version, restored: seq<File>, v': Version)
    requires VersionOk(v) && |v'| == |v| && Relisted(v[0], [], restored, v'[0])
    requires forall l :: 1 <= l < |v| ==> v'[l] == v[l]
    requires (forall f :: f in restored ==> FileOk(f)) && Distinct(restored)
    requires forall f, l, g :: f in restored && 0 <= l < |v| && g in v[l] ==> Newer(f, g) && g.number < f.number
    requires forall f, g :: f in restored && g in restored && g.number < f.number ==> Newer(f, g)
    ensures VersionOk(v')
  {
    hide Newer, Listed, FileOk;
    forall f, g | f in v'[0] && g in v'[0] && f != g
      ensures f.number != g.number && (f.number > g.number ==> Newer(f, g))
    {
      if f in restored && g in restored {
        var i :| 0 <= i < |restored| && restored[i] == f;
        var j :| 0 <= j < |restored| && restored[j] == g;
        assert i < j || j < i;
      }
    }
    forall l, m, f, g | 0 <= l < m < |v'| && f in v'[l] && g in v'[m]
      ensures Newer(f, g)
    {
      assert f in restored || f in v[l];
    }
  }

  lemma OpenedFiles(v: Version, made: set<nat>, restored: seq<File>, v': Version, d: F.Disk, d': F.Disk)
    requires FilesAgree(v, d) && |v'| == |v| && |v| > 0 && Restores(d, made, restored)
    requires (forall f :: f in v'[0] <==> f in v[0] || f in restored) && forall l :: 1 <= l < |v| ==> v'[l] == v[l]
    requires (forall n :: n in made ==> n !in d.manifest.files) && d'.tables == d.tables
    requires d'.manifest.files == d.manifest.files + made
    ensures FilesAgree(v', d')
  {
    forall l, g | 0 <= l < |v'| && g in v'[l]
      ensures (l == 0 && g in restored && g.number in made) || (g in v[l] && g.number in d.manifest.files)
      ensures TableIs(d', g)
    {
      OpenedFile(v, made, restored, d, d', l, g);
    }
    OpenedOne(v, made, restored, v', d);
    hide TableIs, OneFile, FileOk, EntrySet, Distinct;
    forall n
      ensures n in NumbersOf(v') <==> n in NumbersOf(v) || n in made
    {
      if n in NumbersOf(v) {
        var l, g :| 0 <= l < |v| && g in v[l] && g.number == n;
        assert g in v'[l];
      } else if n in made {
        var f :| f in restored && f.number == n;
        assert f in v'[0];
      }
    }
  }

  lemma OpenedFile(v: Version, made: set<nat>, restored: seq<File>, d: F.Disk, d': F.Disk, l: nat, g: File)
    requires FilesAgree(v, d) && Restores(d, made, restored) && l < |v| && (g in v[l] || (l == 0 && g in restored))
    requires d'.tables == d.tables
    ensures (l == 0 && g in restored && g.number in made) || (g in v[l] && g.number in d.manifest.files)
    ensures TableIs(d', g)
  {
    hide OneFile, EntrySet, FileOk, Distinct;
    if g in v[l] {
      assert TableIs(d, g) && g.number in NumbersOf(v);
    } else {
      assert TableIs(d, g) && g.number in NumbersIn(restored);
    }
  }

  lemma OpenedOne(v: Version, made: set<nat>, restored: seq<File>, v': Version, d: F.Disk)
    requires FilesAgree(v, d) && |v'| == |v| && Distinct(restored) && forall n :: n in made ==> n !in d.manifest.files
    requires forall l, g :: 0 <= l < |v'| && g in v'[l] ==>
                              (l == 0 && g in restored && g.number in made) ||
                              (g in v[l] && g.number in d.manifest.files)
    ensures OneFile(v')
  {
    hide TableIs, NumbersOf;
    forall l, m, f, g | 0 <= l < |v'| && 0 <= m < |v'| && f in v'[l] && g in v'[m] && f.number == g.number
      ensures l == m && f == g
    {
      if f.number in made {
        var i :| 0 <= i < |restored| && restored[i] == f;
        var j :| 0 <= j < |restored| && restored[j] == g;
        assert i == j;
      }
    }
  }

  lemma MadeIsNew(opening: F.State)
    requires F.Inv(opening) && opening.process.Opening?
    ensures forall n :: n in opening.process.made ==> n !in opening.disk.manifest.files && n < opening.process.nextFile
    ensures opening.disk.manifest.nextFile < opening.process.nextFile
    ensures forall n :: n in opening.disk.manifest.files ==> n < opening.process.nextFile
  {
    assert F.TablesOk(opening.disk) && F.OpeningOk(opening.disk, opening.process);
    hide F.InTables, F.MadeInOrder, F.LogsOk;
  }

  /** The engine as opened agrees with its files, but for what counts as written. */
  lemma OpenedAgrees(db: E.State, more: set<Entry>, opening: F.State, restored: seq<File>, s': State)
    requires F.Inv(opening) && FilesAgree(db.version, opening.disk) && F.Enabled(opening, F.FinishOpen)
    requires Opened(db, more, opening, restored, s'.db) && s'.files == F.Do(opening, F.FinishOpen)
    requires s'.writing.None? && s'.flushing.None? && s'.outs == []
    ensures s'.files.process.Up? && MemsAgree(s') && FlushAgrees(s') && FilesAgree(s'.db.version, s'.files.disk)
    ensures JobAgrees(s'.db, s'.outs, s'.files.process, s'.files.disk)
  {
    MadeIsNew(opening);
    hide F.Inv, FilesAgree, Listed, FileOk, F.TableEntries;
    OpenedFiles(db.version, opening.process.made, restored, s'.db.version, opening.disk, s'.files.disk);
  }

  /** The entries in flight can be sorted into the memtable. */
  lemma CanWrite(db: E.State, ops: seq<Op>) returns (db': E.State)
    requires E.Structure(db) && db.lastSequence + |ops| < MAX_SEQUENCE
    ensures E.WriteStep(db, db', ops)
  {
    var latest := E.BatchEntries(ops, db.lastSequence + 1);
    E.LatestFacts(db, ops);
    var mem := Sort(latest + EntrySet(db.mem));
    db' := db.(mem := mem, lastSequence := db.lastSequence + |ops|, written := db.written + latest);
  }

  lemma WriteReached(db: E.State, ops: seq<Op>) returns (b: E.State)
    requires E.Structure(db) && E.ReadsHistory(db) && E.Stored(db) <= db.written
    requires db.lastSequence + |ops| < MAX_SEQUENCE
    ensures E.Structure(b) && E.ReadsHistory(b)
    ensures E.Stored(b) == E.Stored(db) + E.BatchEntries(ops, db.lastSequence + 1)
    ensures b.written == db.written + E.BatchEntries(ops, db.lastSequence + 1) && b.version == db.version
    ensures b.lastSequence == db.lastSequence + |ops|
  {
    hide E.Structure, E.ReadsHistory, E.Stored, E.BatchEntries, EntrySet, Merged;
    b := CanWrite(db, ops);
    E.WriteStructure(db, b, ops);
    E.WriteReads(db, b, ops);
    E.StoredAfterWrite(db, b, ops);
  }

  /** The engine's state whose history recovery restores: with the batch in flight, if there is one. */
  lemma Reached(s: State) returns (b: E.State)
    requires Agree(s) && E.Structure(s.db) && E.ReadsHistory(s.db) && E.Stored(s.db) <= s.db.written
    ensures E.Structure(b) && E.ReadsHistory(b) && E.Stored(b) == E.Stored(s.db) + Logged(s)
    ensures b.written == s.db.written + Logged(s) && E.Stored(b) <= b.written && b.version == s.db.version
    ensures b.lastSequence == s.db.lastSequence + |InWriting(s)|
  {
    hide Agree, E.Structure, E.ReadsHistory, E.Stored, E.BatchEntries;
    b := s.db;
    if s.writing.Some? {
      BatchFits(s);
      b := WriteReached(s.db, s.writing.value);
    }
  }

  lemma BatchFits(s: State)
    requires Agree(s) && s.writing.Some?
    ensures s.db.lastSequence + |s.writing.value| < MAX_SEQUENCE
  {
    hide FlushAgrees, FilesAgree, JobAgrees;
  }

  /** What the disk holds when the logs are all replayed. */
  lemma OpeningHolds(s: State, recovery: seq<F.Step>, opening: F.State)
    requires Agree(s) && F.Inv(s.files) && F.RunsTo(s.files, recovery, opening)
    requires forall r :: r in recovery ==> Recovering(r)
    ensures F.Inv(opening) && Holds(s.files.disk, opening.disk) && opening.acked == s.db.written
    ensures FilesAgree(s.db.version, opening.disk)
    ensures forall e :: F.Durable(opening.disk, e) <==> e in E.Stored(s.db) + Logged(s)
  {
    hide F.Inv, Agree, FilesAgree, E.Stored, F.RunsTo, F.Durable, MemsAgree, FlushAgrees, JobAgrees;
    AgreeParts(s);
    RecoveryHolds(s.files, recovery, opening);
    StoredIsDurable(s);
    HoldsFiles(s.db.version, s.files.disk, opening.disk);
  }

  /** Once the database is open, what was durable counts as acknowledged. */
  lemma OpenedAcks(opening: F.State, stored: set<Entry>, written: set<Entry>)
    requires F.Inv(opening) && F.Enabled(opening, F.FinishOpen)
    requires (forall e :: F.Durable(opening.disk, e) <==> e in stored)
    requires opening.acked <= written <= opening.acked + stored && stored <= written
    ensures F.Do(opening, F.FinishOpen).acked == written
  {
    var d, p := opening.disk, opening.process;
    F.FinishOpenKeeps(opening);
    var s' := F.Do(opening, F.FinishOpen);
    hide F.Inv, F.Durable;
    forall e
      ensures e in F.TableEntries(d, d.manifest.files + p.made) <==> F.Live(s'.disk, s'.process, e)
    {
    }
    hide F.TableEntries, F.Live;
  }

  lemma OpenedBounds(opening: F.State, stored: set<Entry>, written: set<Entry>, last: nat)
    requires F.Inv(opening) && F.Enabled(opening, F.FinishOpen) && F.Do(opening, F.FinishOpen).acked == written
    requires (forall e :: F.Durable(opening.disk, e) <==> e in stored) && E.UpTo(stored, last)
    requires opening.disk.manifest.lastSequence <= last
    ensures opening.process.lastSequence <= last && E.UpTo(written, opening.process.lastSequence)
  {
    var d, p := opening.disk, opening.process;
    assert F.OpeningOk(d, p);
    F.FinishOpenKeeps(opening);
    assert F.AckedOk(F.Do(opening, F.FinishOpen));
    hide F.Inv, F.MadeInOrder, F.InTables, F.TableEntries, F.DiskOk, F.AckedOk;
    if p.lastSequence != d.manifest.lastSequence {
      var n, e :| n in p.replayed && n in d.logs && e in d.logs[n] && e.key.seqno == p.lastSequence;
      assert F.LogHas(d, n, e);
      assert F.InLogs(d, e) && F.Durable(d, e);
    }
    assert E.UpTo(written, p.lastSequence) by {
      AcksBounded(opening, written);
    }
  }

  lemma AcksBounded(opening: F.State, written: set<Entry>)
    requires F.Enabled(opening, F.FinishOpen)
    requires F.Do(opening, F.FinishOpen).acked == written && F.AckedOk(F.Do(opening, F.FinishOpen))
    ensures E.UpTo(written, opening.process.lastSequence)
  {
    hide F.Durable, F.TableEntries;
  }

  lemma OpenedNewer(opening: F.State, v: Version, restored: seq<File>)
    requires F.Inv(opening) && opening.process.Opening? && FilesAgree(v, opening.disk)
    requires Restores(opening.disk, opening.process.made, restored)
    ensures forall f, l, g :: f in restored && 0 <= l < |v| && g in v[l] ==> Newer(f, g) && g.number < f.number
    ensures forall f, g :: f in restored && g in restored && g.number < f.number ==> Newer(f, g)
  {
    hide F.Inv, FilesAgree, Newer, FileOk, TableIs;
    forall f | f in restored
      ensures f.number in opening.process.made
    {
      assert f.number in NumbersIn(restored);
    }
    forall f, l, g | f in restored && 0 <= l < |v| && g in v[l]
      ensures Newer(f, g) && g.number < f.number
    {
      RestoredOverOld(opening, v, l, f, g);
    }
    forall f, g | f in restored && g in restored && g.number < f.number
      ensures Newer(f, g)
    {
      RestoredInOrder(opening, f, g);
    }
  }

  /** The opened engine is in good shape. */
  lemma OpenedStructure(b: E.State, opening: F.State, restored: seq<File>, db': E.State)
    requires E.Structure(b) && F.Inv(opening) && F.Enabled(opening, F.FinishOpen) && FilesAgree(b.version, opening.disk)
    requires Opened(b, {}, opening, restored, db') && E.Stored(db') == E.Stored(b) && E.Stored(b) <= b.written
    requires opening.process.lastSequence <= b.lastSequence && E.UpTo(b.written, opening.process.lastSequence)
    ensures E.Structure(db')
  {
    assert VersionOk(b.version) && Unique(b.written) && b.lastSequence < MAX_SEQUENCE && db'.written == b.written;
    MadeIsNew(opening);
    OpenedNewer(opening, b.version, restored);
    hide F.Inv, E.Structure, FilesAgree, Newer, FileOk, TableIs, VersionOk, Unique;
    OpenedVersion(b.version, restored, db'.version);
    forall l, f | 0 <= l < |db'.version| && f in db'.version[l]
      ensures f.number < db'.nextFile
    {
      OpenedNumber(b, opening, restored, db', l, f);
    }
    hide Opened;
    EmptyStructure(db');
  }

  lemma OpenedNumber(b: E.State, opening: F.State, restored: seq<File>, db': E.State, l: nat, f: File)
    requires F.Inv(opening) && FilesAgree(b.version, opening.disk) && Opened(b, {}, opening, restored, db')
    requires l < |db'.version| && f in db'.version[l]
    ensures f.number < db'.nextFile
  {
    MadeIsNew(opening);
    hide F.Inv, OneFile, TableIs, Listed, FileOk, Distinct;
    if f in restored {
      assert f.number in NumbersIn(restored);
    } else {
      assert f in b.version[l] && f.number in NumbersOf(b.version);
    }
  }

  /** With nothing in memory, little is left to show. */
  lemma EmptyStructure(db: E.State)
    requires db.mem == [] && db.imm.None? && db.job.None? && db.snapshots == multiset{} && VersionOk(db.version)
    requires E.UpTo(E.Stored(db), db.lastSequence) && E.UpTo(db.written, db.lastSequence)
    requires db.lastSequence < MAX_SEQUENCE
    requires Unique(db.written) && forall l, f :: 0 <= l < |db.version| && f in db.version[l] ==> f.number < db.nextFile
    ensures E.Structure(db)
  {
    hide VersionOk, AllEntries, Unique;
    assert EntrySet([]) == {};
  }

  /** Beyond the newest entry all snapshots read the same. */
  lemma ReadBeyond(s: set<Entry>, user: Bytes, n: nat, a: nat, b: nat)
    requires Unique(s) && E.UpTo(s, n) && n <= a && n <= b
    ensures Read(s, user, a) == Read(s, user, b)
  {
    if Found(s, user, a) {
      NewestExists(s, user, a);
      var e :| IsNewest(s, user, a, e);
      assert IsNewest(s, user, b, e);
      ReadIs(s, user, a, e);
      ReadIs(s, user, b, e);
    } else {
      forall e
        ensures !IsNewest(s, user, a, e) && !IsNewest(s, user, b, e)
      {
        assert e in s && Visible(e, user, b) ==> Visible(e, user, a);
      }
    }
  }

  lemma OpenedReads(b: E.State, db': E.State)
    requires E.Structure(b) && E.ReadsHistory(b) && E.Structure(db') && E.Stored(db') == E.Stored(b)
    requires db'.written == b.written
    requires db'.snapshots == multiset{}
    ensures E.ReadsHistory(db')
  {
    E.StoredUnique(b);
    assert E.UpTo(db'.written, db'.lastSequence) && E.UpTo(E.Stored(db'), db'.lastSequence);
    hide E.Structure, E.Stored, Read, Unique, E.UpTo;
    forall user: Bytes, snapshot: nat | E.Readable(db', snapshot)
      ensures Read(E.Stored(db'), user, snapshot) == Read(db'.written, user, snapshot)
    {
      var late := if snapshot < b.lastSequence then b.lastSequence else snapshot;
      ReadBeyond(E.Stored(b), user, db'.lastSequence, snapshot, late);
      ReadBeyond(b.written, user, db'.lastSequence, snapshot, late);
      assert E.Readable(b, late);
    }
  }

  lemma OpenedFrom(db: E.State, more: set<Entry>, b: E.State, opening: F.State, restored: seq<File>, db': E.State)
    requires Opened(db, more, opening, restored, db') && b.version == db.version && b.written == db.written + more
    ensures Opened(b, {}, opening, restored, db') && db'.written == b.written && db'.snapshots == multiset{}
  {
    hide Restores, Listed;
    assert b.written + {} == b.written;
  }

  lemma StructureBound(db: E.State)
    requires E.Structure(db)
    ensures E.UpTo(E.Stored(db), db.lastSequence)
  {
    hide E.Stored, VersionOk, Merged, E.JobOk, Unique;
  }

  lemma ManifestLast(s: State)
    requires Agree(s) && F.Inv(s.files)
    ensures s.files.disk.manifest.lastSequence <= s.db.lastSequence
  {
    AgreeParts(s);
    hide Agree, FilesAgree, JobAgrees, FlushAgrees, F.DiskOk, F.AckedOk;
    assert F.UpOk(s.files.disk, s.files.process);
  }

  /** What the opened database stores is what recovery was to find. */
  lemma OpenedStores(s': State, opening: F.State, stored: set<Entry>)
    requires F.Inv(opening) && F.Enabled(opening, F.FinishOpen) && s'.files == F.Do(opening, F.FinishOpen)
    requires Agree(s') && s'.writing.None? && forall e :: F.Durable(opening.disk, e) <==> e in stored
    ensures E.Stored(s'.db) == stored
  {
    F.StepKeeps(opening, F.FinishOpen);
    hide F.Inv, Agree, F.Durable, E.Stored, F.Live, F.Do;
    F.FinishOpenKeeps(opening);
    StoredIsDurable(s');
  }

  /** A crash and a recovery keep the history: nothing written before is lost to reads. */
  lemma CrashKeeps(s: State, e: Event, s': State)
    requires Inv(s) && e.Crash? && Happens(s, e, s')
    ensures Inv(s') && s'.db.written == s.db.written + Logged(s)
    ensures s'.db.lastSequence <= s.db.lastSequence + |InWriting(s)|
  {
    var opening, more := e.opening, Logged(s);
    hide F.Inv, Agree, E.Structure, E.ReadsHistory, E.Stored, F.RunsTo, Logged, Opened, F.Durable;
    hide Holds, F.Do, F.Enabled, FilesAgree, MemsAgree, FlushAgrees, JobAgrees;
    var b := Reached(s);
    OpeningHolds(s, e.recovery, opening);
    ManifestSame(s.files.disk, opening.disk);
    ManifestLast(s);
    StructureBound(b);
    OpenedAcks(opening, E.Stored(b), b.written);
    OpenedFrom(s.db, more, b, opening, e.restored, s'.db);
    OpenedBounds(opening, E.Stored(b), b.written, b.lastSequence);
    OpenedAgrees(s.db, more, opening, e.restored, s');
    F.StepKeeps(opening, F.FinishOpen);
    AgreeBy(s');
    OpenedStores(s', opening, E.Stored(b));
    OpenedIsOpening(s.db, more, opening, e.restored, s'.db);
    OpenedStructure(b, opening, e.restored, s'.db);
    OpenedReads(b, s'.db);
  }

  lemma OpenedIsOpening(db: E.State, more: set<Entry>, opening: F.State, restored: seq<File>, db': E.State)
    requires Opened(db, more, opening, restored, db')
    ensures opening.process.Opening? && db'.lastSequence == opening.process.lastSequence
  {
  }

  lemma ManifestSame(d: F.Disk, d': F.Disk)
    requires Holds(d, d')
    ensures d'.manifest == d.manifest
  {
  }

  // Runs

  lemma StoredWritten(db: E.State, a: E.Action, db': E.State)
    requires E.Structure(db) && E.Next(db, a, db') && E.Stored(db) <= db.written
    ensures E.Stored(db') <= db'.written && db.written <= db'.written
  {
    hide E.Structure, E.Stored, E.BatchEntries, E.FlushStep, E.MoveStep, E.InstallStep;
    match a
    case Write(ops) => E.StoredAfterWrite(db, db', ops);
    case Flush(level, f) =>
      E.FlushStructure(db, db', level, f);
      FlushWrites(db, db', level, f);
    case Move(level, f) =>
      E.MoveStructure(db, db', level, f);
      MoveWrites(db, db', level, f);
    case Install(input, outs) => InstallWrites(db, db', input, outs);
    case _ => E.OtherStore(db, a, db');
  }

  lemma FlushWrites(db: E.State, db': E.State, level: nat, f: File)
    requires E.FlushStep(db, db', level, f)
    ensures db'.written == db.written
  {
    hide FlushInstalled, FileOk;
  }

  lemma MoveWrites(db: E.State, db': E.State, level: nat, f: File)
    requires E.MoveStep(db, db', level, f)
    ensures db'.written == db.written
  {
    hide MergeInstalled;
  }

  lemma InstallWrites(db: E.State, db': E.State, input: seq<Entry>, outs: seq<File>)
    requires E.Structure(db) && E.InstallStep(db, db', input, outs) && E.Stored(db) <= db.written
    ensures db'.written == db.written && E.Stored(db') <= db'.written
  {
    E.InstallVersion(db, db', input, outs);
    hide E.Structure, E.Outputs, MergeInstalled, AllEntries, EntrySet;
  }

  lemma DidKeeps(s: State, step: Step, s': State)
    requires Inv(s) && Next(s, step, s') && Good(Did(step), s)
    ensures Inv(s') && s.db.written <= s'.db.written
  {
    hide F.Inv, Agree, E.Structure, E.ReadsHistory, E.Stored, E.Next, E.Fits, E.Safe;
    StepAgrees(s, step, s');
    EngineStep(s, step, s');
    hide Next;
    var a := InEngine(s, step);
    if a.Some? {
      E.NextKeepsStructure(s.db, a.value, s'.db);
      E.NextKeepsReads(s.db, a.value, s'.db);
      StoredWritten(s.db, a.value, s'.db);
    }
  }

  lemma EngineStep(s: State, step: Step, s': State)
    requires Next(s, step, s')
    ensures EngineMay(s, step, s'.db)
  {
    hide Ready, EngineMay, F.Enabled, F.Do;
  }

  lemma InitKeeps(s: State)
    requires Init(s)
    ensures Inv(s)
  {
    var made :| F.Init(made) && F.RunsTo(made, [F.StartOpen, F.FinishOpen], s.files);
    FirstOpened(made, s.files);
    F.InitOk(made);
    F.RunKeeps(made, [F.StartOpen, F.FinishOpen], s.files);
    E.InitOk(s.db);
    hide F.Inv, F.RunsTo, F.Init, E.Structure, E.ReadsHistory;
    NothingYet(s);
  }

  lemma NothingYet(s: State)
    requires E.Init(s.db) && s.db.nextFile == 4 && s.writing.None? && s.flushing.None? && s.outs == []
    requires s.files.process == F.Up([], None, [], 3, 4, 0, {}, {}, {}, None)
    requires s.files.disk.manifest.files == {} && s.files.acked == {}
    ensures Agree(s) && E.Stored(s.db) <= s.db.written
  {
    assert AllEntries(s.db.version) == {};
    assert NumbersOf(s.db.version) == {};
  }

  /** What opening a new database leaves. */
  lemma FirstOpened(made: F.State, s: F.State)
    requires F.Init(made) && F.RunsTo(made, [F.StartOpen, F.FinishOpen], s)
    ensures s.process == F.Up([], None, [], 3, 4, 0, {}, {}, {}, None) && s.disk.manifest.files == {} && s.acked == {}
  {
    var steps := [F.StartOpen, F.FinishOpen];
    assert steps[1..] == [F.FinishOpen] && [F.FinishOpen][1..] == [];
    var m := F.Do(made, F.StartOpen);
    assert F.RunsTo(m, [F.FinishOpen], s);
    assert F.RunsTo(F.Do(m, F.FinishOpen), [], s);
    assert F.TableEntries(m.disk, {}) == {};
  }

  ghost predicate IsRun(states: seq<State>, events: seq<Event>)
  {
    && |states| == |events| + 1 && Init(states[0])
    && forall i :: 0 <= i < |events| ==> Happens(states[i], events[i], states[i + 1])
  }

  lemma {:induction false} RunKeeps(states: seq<State>, events: seq<Event>, n: nat)
    requires IsRun(states, events) && n < |states| && forall i :: 0 <= i < n ==> Good(events[i], states[i])
    ensures Inv(states[n])
    ensures forall i :: 0 <= i <= n ==> states[i].db.written <= states[n].db.written
  {
    hide Inv, Next, Init;
    if n == 0 {
      InitKeeps(states[0]);
    } else {
      RunKeeps(states, events, n - 1);
      var s, e, s' := states[n - 1], events[n - 1], states[n];
      assert Happens(s, e, s') && Good(e, s);
      if e.Did? {
        DidKeeps(s, e.step, s');
      } else {
        CrashKeeps(s, e, s');
      }
    }
  }

  /**
   Over every run with any number of crashes, between any two steps: every readable snapshot reads
   the history; what was written before a crash is in the history after it; what was ever
   acknowledged is part of it; and what is stored, with the batch in flight, is what the next
   recovery will find.
   */
  lemma ReadsAfterCrashes(states: seq<State>, events: seq<Event>, n: nat)
    requires IsRun(states, events) && n < |states| && forall i :: 0 <= i < n ==> Good(events[i], states[i])
    ensures E.Structure(states[n].db) && E.ReadsHistory(states[n].db)
    ensures forall i :: 0 <= i <= n ==> states[i].db.written <= states[n].db.written
    ensures states[n].files.acked == states[n].db.written
    ensures forall e :: e in E.Stored(states[n].db) + Logged(states[n]) <==> F.Durable(states[n].files.disk, e)
  {
    RunKeeps(states, events, n);
    hide E.Structure, E.ReadsHistory, IsRun, Good, Agree, F.Inv, E.Stored, F.Durable, Logged;
    AgreeParts(states[n]);
    StoredIsDurable(states[n]);
  }

  // What was written, as operations

  /** What an event makes part of the history: a batch as it gets to the memtable, or is recovered. */
  function Committed(s: State, e: Event): seq<Op>
  {
    if e.Crash? || e.step.Commit? then InWriting(s) else []
  }

  function OpsDone(states: seq<State>, events: seq<Event>, n: nat): seq<Op>
    requires n <= |events| && n <= |states|
  {
    if n == 0 then [] else OpsDone(states, events, n - 1) + Committed(states[n - 1], events[n - 1])
  }

  lemma DidWrote(s: State, step: Step, s': State, ops: seq<Op>)
    requires HasWritten(s.db, ops) && Next(s, step, s')
    ensures HasWritten(s'.db, ops + Committed(s, Did(step)))
  {
    hide E.Next, HasWritten;
    EngineStep(s, step, s');
    StepReady(s, step, s');
    var a := InEngine(s, step);
    assert ops + [] == ops;
    if a.Some? {
      NextWrote(s.db, ops, a.value, s'.db);
    }
  }

  lemma StepReady(s: State, step: Step, s': State)
    requires Next(s, step, s')
    ensures Ready(s, step)
  {
    hide Ready, EngineMay, F.Enabled, F.Do;
  }

  lemma CrashWrote(s: State, e: Event, s': State, ops: seq<Op>)
    requires Inv(s) && e.Crash? && Happens(s, e, s') && HasWritten(s.db, ops)
    ensures HasWritten(s'.db, ops + Committed(s, e))
  {
    var all := ops + InWriting(s);
    hide Inv, Happens, E.BatchEntries, E.UpTo;
    HistoryGrows(ops, InWriting(s));
    NoOps(|ops| + 1);
    CrashKeeps(s, e, s');
    assert s'.db.written == E.BatchEntries(all, 1);
    InvBounds(s');
    LastOp(all, s'.db.lastSequence);
  }

  lemma NoOps(first: nat)
    ensures E.BatchEntries([], first) == {}
  {
  }

  lemma InvBounds(s: State)
    requires Inv(s)
    ensures E.UpTo(s.db.written, s.db.lastSequence)
  {
    hide Agree, F.Inv, E.ReadsHistory, E.Stored, E.UpTo;
  }

  lemma LastOp(ops: seq<Op>, last: nat)
    requires E.UpTo(E.BatchEntries(ops, 1), last)
    ensures last >= |ops|
  {
    if ops != [] {
      assert EntryFor(1 + (|ops| - 1), ops[|ops| - 1]) in E.BatchEntries(ops, 1);
    }
  }

  lemma {:induction false} RunHasWritten(states: seq<State>, events: seq<Event>, n: nat)
    requires IsRun(states, events) && n < |states| && forall i :: 0 <= i < n ==> Good(events[i], states[i])
    ensures HasWritten(states[n].db, OpsDone(states, events, n))
  {
    hide Next, Inv, HasWritten;
    if n == 0 {
      FirstWrote(states[0]);
    } else {
      RunHasWritten(states, events, n - 1);
      RunKeeps(states, events, n - 1);
      hide Init;
      var s, e, s' := states[n - 1], events[n - 1], states[n];
      assert Happens(s, e, s');
      if e.Did? {
        DidWrote(s, e.step, s', OpsDone(states, events, n - 1));
      } else {
        CrashWrote(s, e, s', OpsDone(states, events, n - 1));
      }
    }
  }

  lemma FirstWrote(s: State)
    requires Init(s)
    ensures HasWritten(s.db, [])
  {
    hide F.RunsTo, F.Init;
    assert E.BatchEntries([], 1) == {};
  }

  /**
   Over every such run a readable snapshot `n` reads the map after the first `n` operations: those of
   the batches that reached the memtable, and of those that were in the log when the engine stopped.
   */
  lemma ReadsOperations(states: seq<State>, events: seq<Event>, n: nat, user: Bytes, snapshot: nat)
    requires IsRun(states, events) && n < |states| && forall i :: 0 <= i < n ==> Good(events[i], states[i])
    requires E.Readable(states[n].db, snapshot)
    ensures Read(E.Stored(states[n].db), user, snapshot) == ValueAfter(Upto(OpsDone(states, events, n), snapshot), user)
    ensures states[n].db.lastSequence == |OpsDone(states, events, n)|
  {
    assert n <= |events|;
    ReadsAfterCrashes(states, events, n);
    RunHasWritten(states, events, n);
    hide IsRun, Good, E.Readable, E.Stored, Read, ValueAfter, Upto, OpsDone, E.BatchEntries, E.Structure, F.Durable;
    HistoryReads(OpsDone(states, events, n), user, snapshot);
  }

  // Recovery never gets stuck

  /** Every table made so far has an entry. */
  ghost predicate MadeFull(s: F.State)
  {
    s.process.Opening? && forall t :: t in s.process.made ==> t in s.disk.tables && s.disk.tables[t] != {}
  }

  ghost function ToReplay(s: F.State): set<nat>
    requires s.process.Opening?
  {
    set n | n in s.disk.logs && F.Needed(s.disk, n) && n !in s.process.replayed
  }

  lemma {:induction false} LeastOf(s: set<nat>) returns (m: nat)
    requires s != {}
    ensures m in s && forall n :: n in s ==> m <= n
    decreases |s|
  {
    m :| m in s;
    if s != {m} {
      var r := LeastOf(s - {m});
      assert forall n :: n in s ==> n == m || n in s - {m};
      m := if r < m then r else m;
    }
  }

  /** A log is replayed in one piece. */
  lemma ReplayOne(s: F.State, n: nat) returns (step: F.Step)
    requires F.Inv(s) && MadeFull(s) && n in ToReplay(s) && forall m :: m in ToReplay(s) ==> n <= m
    ensures F.Enabled(s, step) && Recovering(step) && MadeFull(F.Do(s, step)) && F.Inv(F.Do(s, step))
    ensures ToReplay(F.Do(s, step)) == ToReplay(s) - {n}
  {
    var log := s.disk.logs[n];
    var cuts: seq<nat> := if log == [] then [] else [|log|];
    step := F.ReplayLog(n, cuts);
    OnePiece(log, cuts);
    hide F.Inv, F.Pieces, F.CutsOk;
    assert forall m :: F.Needed(s.disk, m) && m !in s.process.replayed ==> m in ToReplay(s);
    assert F.Enabled(s, step);
    F.ReplayKeeps(s, n, cuts);
    ReplayedFull(s, n, cuts);
    ReplayedOne(s, n, cuts);
    hide MadeFull, ToReplay, F.Enabled, F.Do;
  }

  lemma ReplayedOne(s: F.State, n: nat, cuts: seq<nat>)
    requires F.Enabled(s, F.ReplayLog(n, cuts))
    ensures F.Do(s, F.ReplayLog(n, cuts)).process.Opening?
    ensures ToReplay(F.Do(s, F.ReplayLog(n, cuts))) == ToReplay(s) - {n}
  {
    hide F.Pieces, F.CutsOk, F.MaxSequence, F.WithTables, F.Range;
  }

  lemma ReplayedFull(s: F.State, n: nat, cuts: seq<nat>)
    requires F.Inv(s) && MadeFull(s) && F.Enabled(s, F.ReplayLog(n, cuts))
    requires forall i :: 0 <= i < |cuts| ==> EntrySet(F.Pieces(s.disk.logs[n], cuts)[i]) != {}
    ensures MadeFull(F.Do(s, F.ReplayLog(n, cuts)))
  {
    MadeBelow(s);
    var ps := F.Pieces(s.disk.logs[n], cuts);
    hide F.Inv, F.Pieces, F.CutsOk, F.MaxSequence, F.WithTables, EntrySet;
    var s' := F.Do(s, F.ReplayLog(n, cuts));
    forall t | t in s'.process.made
      ensures t in s'.disk.tables && s'.disk.tables[t] != {}
    {
      F.TablesAt(s.disk.tables, s.process.nextFile, ps, t);
      assert t in s.process.made || s.process.nextFile <= t < s.process.nextFile + |ps|;
    }
  }

  lemma MadeBelow(s: F.State)
    requires F.Inv(s) && s.process.Opening?
    ensures forall t :: t in s.process.made ==> t < s.process.nextFile
  {
    hide F.InTables, F.MadeInOrder, F.DiskOk;
  }

  lemma OnePiece(log: seq<Entry>, cuts: seq<nat>)
    requires cuts == if log == [] then [] else [|log|]
    ensures F.CutsOk(log, cuts) && forall i :: 0 <= i < |cuts| ==> EntrySet(F.Pieces(log, cuts)[i]) != {}
  {
    if log != [] {
      assert F.Pieces(log, cuts)[0] == log && log[0] in EntrySet(log);
    }
  }

  lemma {:induction false} ReplayAll(s: F.State) returns (steps: seq<F.Step>, s': F.State)
    requires F.Inv(s) && MadeFull(s)
    ensures F.RunsTo(s, steps, s') && (forall r :: r in steps ==> Recovering(r))
    ensures F.Inv(s') && MadeFull(s') && F.Enabled(s', F.FinishOpen)
    decreases |ToReplay(s)|
  {
    hide F.Inv, MadeFull;
    assert s.process.Opening? by {
      IsOpening(s);
    }
    if ToReplay(s) == {} {
      steps, s' := [], s;
      assert forall n :: F.Needed(s.disk, n) ==> n in s.process.replayed || n in ToReplay(s);
    } else {
      var n := LeastOf(ToReplay(s));
      var step := ReplayOne(s, n);
      hide F.Enabled, F.Do, ToReplay;
      var rest;
      rest, s' := ReplayAll(F.Do(s, step));
      steps := [step] + rest;
      assert steps[1..] == rest;
    }
  }

  lemma IsOpening(s: F.State)
    requires MadeFull(s)
    ensures s.process.Opening?
  {
  }

  /** Whatever has happened, recovery can start again. */
  lemma Restart(s: F.State) returns (steps: seq<F.Step>, s': F.State)
    requires F.Inv(s)
    ensures F.RunsTo(s, steps, s') && (forall r :: r in steps ==> Recovering(r)) && F.Inv(s') && MadeFull(s')
  {
    var down := s;
    steps := [];
    if !s.process.Down? {
      down := F.Do(s, F.Crash);
      F.StepKeeps(s, F.Crash);
      steps := [F.Crash];
    }
    F.StepKeeps(down, F.StartOpen);
    s' := F.Do(down, F.StartOpen);
    hide F.Inv;
    assert [F.StartOpen][1..] == [] && F.RunsTo(down, [F.StartOpen], s');
    assert [F.Crash, F.StartOpen][1..] == [F.StartOpen];
    steps := steps + [F.StartOpen];
  }

  lemma {:induction false} RunsOn(s: F.State, a: seq<F.Step>, m: F.State, b: seq<F.Step>, s': F.State)
    requires F.RunsTo(s, a, m) && F.RunsTo(m, b, s')
    ensures F.RunsTo(s, a + b, s')
    decreases |a|
  {
    hide F.Enabled, F.Do;
    if a == [] {
      assert a + b == b;
    } else {
      RunsOn(F.Do(s, a[0]), a[1..], m, b, s');
      assert (a + b)[0] == a[0] && (a + b)[1..] == a[1..] + b;
    }
  }

  /** A table with entries is a file. */
  lemma FileFor(d: F.Disk, n: nat) returns (f: File)
    requires n in d.tables && d.tables[n] != {} && Unique(d.tables[n])
    ensures f.number == n && FileOk(f) && TableIs(d, f)
  {
    var es := Sort(d.tables[n]);
    EmptyIsEmpty(es);
    f := File(n, 0, es[0].key, es[|es| - 1].key, es);
  }

  lemma RestoresMore(d: F.Disk, made: set<nat>, front: seq<File>, f: File)
    requires Restores(d, made, front) && FileOk(f) && TableIs(d, f) && f.number !in made
    ensures Restores(d, made + {f.number}, front + [f])
  {
    hide FileOk, TableIs;
    var files := front + [f];
    assert NumbersIn(files) == NumbersIn(front) + {f.number};
    forall i, j | 0 <= i < j < |files|
      ensures files[i].number != files[j].number
    {
      assert files[i] in front && files[i].number in NumbersIn(front);
    }
  }

  lemma NothingMade(d: F.Disk)
    ensures Restores(d, {}, [])
  {
    assert NumbersIn([]) == {};
  }

  lemma {:induction false} FilesFor(d: F.Disk, made: set<nat>) returns (files: seq<File>)
    requires forall t :: t in made ==> t in d.tables && d.tables[t] != {} && Unique(d.tables[t])
    ensures Restores(d, made, files)
    decreases |made|
  {
    hide Restores, FileOk, TableIs, Unique;
    if made == {} {
      files := [];
      NothingMade(d);
    } else {
      var t :| t in made;
      var front := FilesFor(d, made - {t});
      var f := FileFor(d, t);
      RestoresMore(d, made - {t}, front, f);
      files := front + [f];
      assert made - {t} + {t} == made;
    }
  }

  /** The tables that recovery has made hold no two entries of a key and sequence number. */
  lemma MadeUnique(opening: F.State, stored: set<Entry>)
    requires F.Inv(opening) && opening.process.Opening? && Unique(stored)
    requires forall e :: F.Durable(opening.disk, e) ==> e in stored
    ensures forall t :: t in opening.process.made && t in opening.disk.tables ==> Unique(opening.disk.tables[t])
  {
    var d, p := opening.disk, opening.process;
    forall t, e | t in p.made && t in d.tables && e in d.tables[t]
      ensures e in stored
    {
      MadeStored(opening, t, e);
    }
  }

  lemma MadeStored(opening: F.State, t: nat, e: Entry)
    requires F.Inv(opening) && opening.process.Opening?
    requires t in opening.process.made && t in opening.disk.tables && e in opening.disk.tables[t]
    ensures F.Durable(opening.disk, e)
  {
    var d, p := opening.disk, opening.process;
    assert F.InTables(d, p.made, e);
    assert F.OpeningOk(d, p);
    hide F.Inv, F.InTables, F.MadeInOrder;
    var n: nat :| n in p.replayed && n in d.logs && e in d.logs[n];
    assert F.LogHas(d, n, e);
  }

  /** Level 0 with the restored files can be listed. */
  lemma ListLevelZero(files: seq<File>, restored: seq<File>) returns (r: seq<File>)
    requires LevelZeroOk(files) && Distinct(restored)
    requires forall f, g :: f in restored && g in files ==> g.number < f.number
    ensures Relisted(files, [], restored, r)
  {
    var all := (set f | f in files) + set f | f in restored;
    var lt := (f: File, g: File) => BySmallest(f, g);
    forall f, g | f in all && g in all && f != g
      ensures lt(f, g) || lt(g, f)
    {
      assert f.number != g.number by {
        if f in restored && g in restored {
          var i :| 0 <= i < |restored| && restored[i] == f;
          var j :| 0 <= j < |restored| && restored[j] == g;
          assert i < j || j < i;
        }
      }
    }
    r := Listing(all, lt);
    hide Newer;
  }

  /**
   Recovery never gets stuck: from every state and however far an earlier recovery came, there is
   one that opens the database again.
   */
  lemma CanRecover(s: State, begun: seq<F.Step>, now: F.State) returns (rest: seq<F.Step>, e: Event, s': State)
    requires Inv(s) && F.RunsTo(s.files, begun, now) && forall r :: r in begun ==> Recovering(r)
    ensures e.Crash? && e.recovery == begun + rest && Happens(s, e, s')
  {
    hide F.Inv, Agree, E.Structure, E.ReadsHistory, E.Stored, F.RunsTo, Logged, F.Durable, F.Enabled, F.Do;
    hide Holds, FilesAgree, MadeFull, Restores, MemsAgree, FlushAgrees, JobAgrees;
    var b := Reached(s);
    RecoveryHolds(s.files, begun, now);
    var again, start := Restart(now);
    var replay, opening := ReplayAll(start);
    rest := again + replay;
    RunsOn(now, again, start, replay, opening);
    RunsOn(s.files, begun, now, rest, opening);
    OpeningHolds(s, begun + rest, opening);
    var restored, db' := CanOpen(s, b, opening);
    e := Crash(begun + rest, opening, restored);
    s' := State(db', F.Do(opening, F.FinishOpen), None, None, []);
  }

  /** What recovery has made can be opened. */
  lemma CanOpen(s: State, b: E.State, opening: F.State) returns (restored: seq<File>, db': E.State)
    requires E.Structure(s.db) && E.Structure(b) && F.Inv(opening) && MadeFull(opening)
    requires FilesAgree(s.db.version, opening.disk) && forall e :: F.Durable(opening.disk, e) ==> e in E.Stored(b)
    ensures Opened(s.db, Logged(s), opening, restored, db')
  {
    var p, v := opening.process, s.db.version;
    VersionParts(s.db);
    hide F.Inv, E.Structure, FilesAgree, F.Durable, E.Stored, Logged, LevelZeroOk, Unique, Restores, Relisted, Newer;
    restored := CanRestore(b, opening);
    OpenedNewer(opening, v, restored);
    RestoredParts(opening.disk, p.made, restored);
    var zero := ListLevelZero(v[0], restored);
    hide MadeFull;
    db' := E.State([], None, [zero] + v[1..], None, p.lastSequence, multiset{}, p.nextFile + 1,
                   s.db.written + Logged(s));
  }

  lemma VersionParts(db: E.State)
    requires E.Structure(db)
    ensures |db.version| > 0 && LevelZeroOk(db.version[0])
  {
    hide LevelZeroOk, LayersOk, FilesOk, Listed, DeepLevelOk, E.UpTo, Unique, E.Stored, E.JobOk;
  }

  lemma RestoredParts(d: F.Disk, made: set<nat>, restored: seq<File>)
    requires Restores(d, made, restored)
    ensures Distinct(restored)
  {
  }

  lemma CanRestore(b: E.State, opening: F.State) returns (restored: seq<File>)
    requires E.Structure(b) && F.Inv(opening) && MadeFull(opening)
    requires forall e :: F.Durable(opening.disk, e) ==> e in E.Stored(b)
    ensures Restores(opening.disk, opening.process.made, restored)
  {
    E.StoredUnique(b);
    hide F.Inv, E.Structure, F.Durable, E.Stored, Unique, Restores;
    MadeUnique(opening, E.Stored(b));
    restored := FilesFor(opening.disk, opening.process.made);
  }
}
