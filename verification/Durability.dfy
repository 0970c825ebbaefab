/**
 Durability: the files on disk, the process that writes them, and crashes.

 A log is the entries of the batches appended to it, a table the set of entries in it. A crash
 loses the process and keeps the files. Entries of a compaction's inputs that its outputs leave
 out are remembered as dropped; that dropping them changes no read is a property of compaction.
 */
module Durability {
  import opened Keys
  import opened Drops

  /** What the last edit in the manifest says. */
  datatype Record = Record(files: set<nat>, logNumber: nat, nextFile: nat, lastSequence: nat)

  datatype Disk = Disk(logs: map<nat, seq<Entry>>, tables: map<nat, set<Entry>>, manifest: Record)

  /**
   A running database. A batch that is in the log but not yet in the memtable is in flight. The
   numbers of tables under construction are pending, also when they are built; that of a flushed
   table no longer is while its edit is being logged.
   */
  datatype Process =
    | Down
    | Opening(nextFile: nat, replayed: set<nat>, made: set<nat>, lastSequence: nat)
    | Up(mem: seq<Entry>, imm: Option<seq<Entry>>, inFlight: seq<Entry>, logFile: nat, nextFile: nat,
         lastSequence: nat, pinned: set<nat>, pending: set<nat>, built: set<nat>, installing: Option<nat>)

  datatype State = State(disk: Disk, process: Process, acked: set<Entry>, dropped: set<Entry>)

  datatype Step =
    | Append(batch: seq<Entry>)                         // log->AddRecord
    | Acknowledge                                       // InsertInto(mem), SetLastSequence
    | SwitchLog
    | Allocate                                          // NewFileNumber, pending_outputs_.insert
    | Build(table: nat, entries: set<Entry>)
    | Unprotect(table: nat)                             // pending_outputs_.erase
    | InstallFlush                                      // an empty memtable leaves no table
    | InstallCompaction(inputs: set<nat>, outputs: set<nat>)
    | Abandon(tables: set<nat>)                         // CleanupCompaction
    | Pin
    | Unpin(kept: set<nat>)
    | DeleteTable(table: nat)
    | DeleteLog(log: nat)
    | Crash
    | StartOpen
    | ReplayLog(log: nat, cuts: seq<nat>)
    | FinishOpen

  ghost predicate Consecutive(batch: seq<Entry>, first: nat) {
    forall i :: 0 <= i < |batch| ==> batch[i].key.seqno == first + i
  }

  /** The logs that recovery replays. */
  ghost predicate Needed(d: Disk, n: nat) {
    n in d.logs && n >= d.manifest.logNumber
  }

  function MaxSequence(es: seq<Entry>, low: nat): (m: nat)
    ensures m >= low && (forall e :: e in es ==> e.key.seqno <= m)
    ensures (m == low || exists e :: e in es && e.key.seqno == m)
  {
    if es == [] then low
    else
      var m := MaxSequence(es[..|es| - 1], low);
      var last := es[|es| - 1];
      assert es == es[..|es| - 1] + [last];
      if last.key.seqno > m then last.key.seqno else m
  }

  /** The tables that a log is cut into on recovery: one for each memtable that fills up. */
  ghost function Pieces(log: seq<Entry>, cuts: seq<nat>): (ps: seq<seq<Entry>>)
    requires CutsOk(log, cuts)
    ensures |ps| == |cuts|
  {
    seq(|cuts|, i requires 0 <= i < |cuts| => log[(if i == 0 then 0 else cuts[i - 1])..cuts[i]])
  }

  /** Ascending cut points, the last at the end of the log. */
  ghost predicate CutsOk(log: seq<Entry>, cuts: seq<nat>) {
    && (forall i :: 0 <= i < |cuts| ==> (if i == 0 then 0 else cuts[i - 1]) < cuts[i] <= |log|)
    && (if log == [] then cuts == [] else |cuts| > 0 && cuts[|cuts| - 1] == |log|)
  }

  function Range(first: nat, n: nat): (r: set<nat>)
    ensures forall k :: k in r <==> first <= k < first + n
  {
    if n == 0 then {} else Range(first, n - 1) + {first + n - 1}
  }

  /** Adds tables numbered from `first`. */
  ghost function WithTables(tables: map<nat, set<Entry>>, first: nat, ps: seq<seq<Entry>>): map<nat, set<Entry>> {
    map n: nat | n in tables.Keys + Range(first, |ps|) :: if first <= n < first + |ps|
                                                          then EntrySet(ps[n - first]) else tables[n]
  }

  /** When a step may be taken. */
  ghost predicate Enabled(s: State, step: Step) {
    var d, p := s.disk, s.process;
    match step
    case Append(batch) => p.Up? && p.inFlight == [] && p.logFile in d.logs && Consecutive(batch, p.lastSequence + 1)
    case Acknowledge => p.Up?
    case SwitchLog => p.Up? && p.imm.None? && p.inFlight == []
    case Allocate => p.Up?
    case Build(t, entries) => p.Up? && t in p.pending && t !in p.built
    case Unprotect(t) =>
      && p.Up? && p.installing.None? && p.imm.Some? && t in p.pending
      && (p.imm.value == [] || (t in p.built && t in d.tables && d.tables[t] == EntrySet(p.imm.value)))
    case InstallFlush => p.Up? && p.imm.Some? && p.installing.Some?
    case Abandon(ts) => p.Up? && ts <= p.pending
    case InstallCompaction(inputs, outputs) =>
      && p.Up? && p.installing.None? && inputs <= d.manifest.files && outputs <= p.built
      && forall t, e :: t in outputs && t in d.tables && e in d.tables[t] ==> InTables(d, inputs, e)
    case Pin => p.Up?
    case Unpin(kept) => p.Up? && kept <= p.pinned
    case DeleteTable(t) => p.Up? && p.installing.None? && t !in d.manifest.files && t !in p.pinned && t !in p.pending
    case DeleteLog(n) => p.Up? && p.installing.None? && n < d.manifest.logNumber
    case Crash => !p.Down?
    case StartOpen => p.Down?
    case ReplayLog(n, cuts) =>
      && p.Opening? && Needed(d, n) && n !in p.replayed && CutsOk(d.logs[n], cuts)
      && forall m :: Needed(d, m) && m !in p.replayed ==> n <= m
    case FinishOpen => p.Opening? && forall n :: Needed(d, n) ==> n in p.replayed
  }

  /** An entry is in one of these tables. */
  ghost predicate InTables(d: Disk, files: set<nat>, e: Entry) {
    exists t :: t in files && t in d.tables && e in d.tables[t]
  }

  ghost function TableEntries(d: Disk, files: set<nat>): set<Entry> {
    set t, e | t in files && t in d.tables && e in d.tables[t] :: e
  }

  /** Log `n` will be replayed and holds the entry. */
  ghost predicate LogHas(d: Disk, n: nat, e: Entry) {
    Needed(d, n) && e in d.logs[n]
  }

  ghost predicate InLogs(d: Disk, e: Entry) {
    exists n :: LogHas(d, n, e)
  }

  /** Recovery will find the entry. */
  ghost predicate Durable(d: Disk, e: Entry) {
    InTables(d, d.manifest.files, e) || InLogs(d, e)
  }

  function Max(a: nat, b: nat): nat {
    if a < b then b else a
  }

  ghost function Do(s: State, step: Step): State
    requires Enabled(s, step)
  {
    var d, p := s.disk, s.process;
    match step
    case Append(batch) =>
      s.(disk := d.(logs := d.logs[p.logFile := d.logs[p.logFile] + batch]), process := p.(inFlight := batch))
    case Acknowledge =>
      s.(process := p.(mem := p.mem + p.inFlight, inFlight := [], lastSequence := p.lastSequence + |p.inFlight|),
      acked := s.acked + EntrySet(p.inFlight))
    case SwitchLog =>
      s.(disk := d.(logs := d.logs[p.nextFile := []]),
      process := p.(imm := Some(p.mem), mem := [], logFile := p.nextFile, nextFile := p.nextFile + 1))
    case Allocate => s.(process := p.(pending := p.pending + {p.nextFile}, nextFile := p.nextFile + 1))
    case Build(t, entries) => s.(disk := d.(tables := d.tables[t := entries]), process := p.(built := p.built + {t}))
    case Unprotect(t) => s.(process := p.(pending := p.pending - {t}, built := p.built - {t}, installing := Some(t)))
    case InstallFlush =>
      var files := d.manifest.files + if p.imm.value == [] then {} else {p.installing.value};
      s.(disk := d.(manifest := Record(files, p.logFile, p.nextFile, p.lastSequence)),
      process := p.(imm := None, installing := None))
    case Abandon(ts) => s.(process := p.(pending := p.pending - ts, built := p.built - ts))
    case InstallCompaction(inputs, outputs) =>
      s.(disk := d.(manifest := Record(d.manifest.files - inputs + outputs, d.manifest.logNumber, p.nextFile,
                                       p.lastSequence)),
      process := p.(pending := p.pending - outputs, built := p.built - outputs),
      dropped := s.dropped + set t, e | t in inputs && t in d.tables && e in d.tables[t] &&
                                          !InTables(d, outputs, e) :: e)
    case Pin => s.(process := p.(pinned := p.pinned + d.manifest.files))
    case Unpin(kept) => s.(process := p.(pinned := kept))
    case DeleteTable(t) => s.(disk := d.(tables := d.tables - {t}))
    case DeleteLog(n) => s.(disk := d.(logs := d.logs - {n}))
    case Crash => s.(process := Down)
    case StartOpen => s.(process := Opening(d.manifest.nextFile + 1, {}, {}, d.manifest.lastSequence))
    case ReplayLog(n, cuts) =>
      var ps := Pieces(d.logs[n], cuts);
      s.(disk := d.(tables := WithTables(d.tables, p.nextFile, ps)),
      process := Opening(Max(p.nextFile + |ps|, n + 1), p.replayed + {n}, p.made + Range(p.nextFile, |ps|),
                         MaxSequence(d.logs[n], p.lastSequence)))
    case FinishOpen =>
      s.(disk := d.(logs := d.logs[p.nextFile := []],
      manifest := Record(d.manifest.files + p.made, p.nextFile, p.nextFile + 1, p.lastSequence)),
      process := Up([], None, [], p.nextFile, p.nextFile + 1, p.lastSequence, {}, {}, {}, None),
      acked := s.acked + TableEntries(d, d.manifest.files + p.made))
  }

  // The invariant

  ghost predicate Ascending(es: seq<Entry>) {
    forall i, j :: 0 <= i < j < |es| ==> es[i].key.seqno < es[j].key.seqno
  }

  /** The tables the manifest names exist and hold nothing newer than it says. */
  ghost predicate TablesOk(d: Disk) {
    && d.manifest.files <= d.tables.Keys && d.manifest.logNumber < d.manifest.nextFile
    && (forall t :: t in d.manifest.files ==> t < d.manifest.nextFile)
    && (forall e :: InTables(d, d.manifest.files, e) ==> e.key.seqno <= d.manifest.lastSequence)
  }

  /** The logs to replay are newer than the tables and follow one another. */
  ghost predicate LogsOk(d: Disk) {
    && (forall n, e, e' :: LogHas(d, n, e) && InTables(d, d.manifest.files, e') ==> e'.key.seqno < e.key.seqno)
    && (forall n :: Needed(d, n) ==> Ascending(d.logs[n]))
    && (forall m, n, e, e' :: m < n && LogHas(d, m, e) && LogHas(d, n, e') ==> e.key.seqno < e'.key.seqno)
  }

  ghost predicate DiskOk(d: Disk) {
    TablesOk(d) && LogsOk(d)
  }

  /** What has been made so far holds exactly the logs replayed so far, oldest first. */
  ghost predicate OpeningOk(d: Disk, p: Process)
    requires p.Opening?
  {
    && d.manifest.nextFile < p.nextFile && p.lastSequence >= d.manifest.lastSequence
    && (forall n :: n in p.replayed ==> Needed(d, n) && n < p.nextFile)
    && (forall n, e :: n in p.replayed && n in d.logs && e in d.logs[n] ==>
                         InTables(d, p.made, e) && e.key.seqno <= p.lastSequence)
    && (forall e :: InTables(d, p.made, e) ==> exists n :: n in p.replayed && n in d.logs && e in d.logs[n])
    && (forall t :: t in p.made ==> t in d.tables && d.manifest.nextFile < t < p.nextFile)
    && (p.lastSequence == d.manifest.lastSequence || exists n, e :: n in p.replayed && n in d.logs &&
                                                                    e in d.logs[n] && e.key.seqno == p.lastSequence)
    && (forall m, n: nat :: m in p.replayed && Needed(d, n) && n !in p.replayed ==> m < n)
    && MadeInOrder(d, p.made)
  }

  /** Tables with larger numbers hold newer entries. */
  ghost predicate MadeInOrder(d: Disk, made: set<nat>) {
    forall s, t, a, b :: s in made && t in made && s < t && s in d.tables && t in d.tables && a in d.tables[s] &&
                         b in d.tables[t] ==>
                           a.key.seqno < b.key.seqno
  }

  /** The logs to replay are those of the two memtables, and nothing in use can be deleted. */
  ghost predicate UpOk(d: Disk, p: Process)
    requires p.Up?
  {
    && d.manifest.nextFile <= p.nextFile && p.lastSequence >= d.manifest.lastSequence
    && (forall n :: n in d.logs ==> n < p.nextFile)
    && p.logFile in d.logs && d.logs[p.logFile] == p.mem + p.inFlight && d.manifest.logNumber <= p.logFile
    && (p.imm.None? ==> d.manifest.logNumber == p.logFile)
    && (p.imm.Some? ==>
          d.manifest.logNumber < p.logFile && d.manifest.logNumber in d.logs &&
          d.logs[d.manifest.logNumber] == p.imm.value)
    && (forall n :: Needed(d, n) ==> n == p.logFile || (p.imm.Some? && n == d.manifest.logNumber))
    && Consecutive(p.inFlight, p.lastSequence + 1)
    && (forall e :: e in p.mem ==> e.key.seqno <= p.lastSequence)
    && (p.imm.Some? ==> forall e :: e in p.imm.value ==> e.key.seqno <= p.lastSequence)
    && p.pinned <= d.tables.Keys
    && (forall t :: t in p.pinned ==> t < p.nextFile)
    && (forall t :: t in p.pending ==> t < p.nextFile && t !in p.pinned && t !in d.manifest.files)
    && p.built <= p.pending && p.built <= d.tables.Keys
    && (p.installing.Some? ==> InstallingOk(d, p, p.installing.value))
  }

  /** The flushed table is complete and can still not be deleted. */
  ghost predicate InstallingOk(d: Disk, p: Process, t: nat)
    requires p.Up?
  {
    && p.imm.Some? && t < p.nextFile && t !in p.pinned && t !in p.pending && t !in d.manifest.files
    && (p.imm.value == [] || (t in d.tables && d.tables[t] == EntrySet(p.imm.value)))
  }

  ghost predicate ProcessOk(d: Disk, p: Process) {
    match p
    case Down => true
    case Opening(_, _, _, _) => OpeningOk(d, p)
    case Up(_, _, _, _, _, _, _, _, _, _) => UpOk(d, p)
  }

  /** Every acknowledged entry will be found by recovery, unless a compaction dropped it. */
  ghost predicate AckedOk(s: State) {
    && (forall e :: e in s.acked ==> Durable(s.disk, e) || e in s.dropped)
    && (forall e :: e in s.dropped ==> e.key.seqno <= s.disk.manifest.lastSequence)
    && (s.process.Up? ==> forall e :: e in s.acked ==> e.key.seqno <= s.process.lastSequence)
  }

  ghost predicate Inv(s: State) {
    DiskOk(s.disk) && ProcessOk(s.disk, s.process) && AckedOk(s)
  }

  /** A database that has just been created: an empty manifest. */
  ghost predicate Init(s: State) {
    s == State(Disk(map[], map[], Record({}, 0, 2, 0)), Down, {}, {})
  }

  lemma InitOk(s: State)
    requires Init(s)
    ensures Inv(s)
  {
  }

  // What each kind of step keeps

  lemma SameTables(d: Disk, d': Disk, files: set<nat>)
    requires forall t :: t in files ==> (t in d.tables <==> t in d'.tables)
    requires forall t :: t in files && t in d.tables ==> d'.tables[t] == d.tables[t]
    ensures forall e :: InTables(d, files, e) <==> InTables(d', files, e)
  {
  }

  /** Recovery reads the same tables and the same logs. */
  ghost predicate SameView(d: Disk, d': Disk) {
    && d.manifest == d'.manifest
    && (forall t :: t in d.manifest.files ==> (t in d.tables <==> t in d'.tables))
    && (forall t :: t in d.manifest.files && t in d.tables ==> d'.tables[t] == d.tables[t])
    && (forall n :: Needed(d, n) ==> Needed(d', n) && d'.logs[n] == d.logs[n])
    && (forall n :: Needed(d', n) ==> Needed(d, n) || d'.logs[n] == [])
  }

  lemma SameViewKeeps(d: Disk, d': Disk)
    requires DiskOk(d) && SameView(d, d')
    ensures DiskOk(d') && forall e :: Durable(d, e) <==> Durable(d', e)
  {
    SameTables(d, d', d.manifest.files);
    hide InTables;
    assert forall n, e :: LogHas(d', n, e) <==> LogHas(d, n, e);
    assert forall n :: Needed(d', n) ==> Ascending(d'.logs[n]);
  }

  /** Appending newer entries to the last log keeps the logs in order. */
  lemma AppendLogs(d: Disk, n: nat, batch: seq<Entry>, last: nat)
    requires DiskOk(d) && Needed(d, n) && (forall m: nat :: Needed(d, m) ==> m <= n) && Consecutive(batch, last + 1)
    requires forall e :: Durable(d, e) ==> e.key.seqno <= last
    ensures var d' := d.(logs := d.logs[n := d.logs[n] + batch]);
            DiskOk(d') && forall e :: Durable(d', e) <==> Durable(d, e) || e in batch
  {
    var d' := d.(logs := d.logs[n := d.logs[n] + batch]);
    SameTables(d, d', d.manifest.files);
    AppendHas(d, n, batch, last);
    hide InTables, LogHas, Needed, Consecutive, Ascending;
    assert forall e :: InLogs(d', e) <==> InLogs(d, e) || e in batch;
    hide InLogs;
  }

  lemma AppendHas(d: Disk, n: nat, batch: seq<Entry>, last: nat)
    requires DiskOk(d) && Needed(d, n) && (forall m: nat :: Needed(d, m) ==> m <= n) && Consecutive(batch, last + 1)
    requires forall e :: Durable(d, e) ==> e.key.seqno <= last
    ensures var d' := d.(logs := d.logs[n := d.logs[n] + batch]);
            && (forall m: nat, e :: LogHas(d', m, e) <==> LogHas(d, m, e) || (m == n && e in batch))
            && (forall m: nat, e :: LogHas(d, m, e) ==> m <= n && e.key.seqno <= last)
            && (forall e :: e in batch ==> e.key.seqno > last && LogHas(d', n, e))
            && (forall m: nat :: Needed(d', m) ==> Ascending(d'.logs[m]))
  {
    hide InTables, TablesOk;
    assert forall m: nat, e :: LogHas(d, m, e) ==> InLogs(d, e) && Durable(d, e);
    assert forall e :: e in d.logs[n] ==> LogHas(d, n, e);
    AscendingAppend(d.logs[n], batch, last);
  }

  lemma AscendingAppend(es: seq<Entry>, batch: seq<Entry>, last: nat)
    requires Ascending(es) && Consecutive(batch, last + 1) && forall e :: e in es ==> e.key.seqno <= last
    ensures Ascending(es + batch)
  {
  }

  /** What a running database holds: the tables of its version, the two memtables, the batch in flight. */
  ghost predicate Live(d: Disk, p: Process, e: Entry)
    requires p.Up?
  {
    InTables(d, d.manifest.files, e) || e in p.mem || e in p.inFlight || (p.imm.Some? && e in p.imm.value)
  }

  /** A crash loses nothing: what recovery will find is what the running database holds. */
  lemma LiveIsDurable(d: Disk, p: Process)
    requires p.Up? && UpOk(d, p)
    ensures forall e :: Live(d, p, e) <==> Durable(d, e)
  {
    hide InTables;
    forall e
      ensures Live(d, p, e) <==> Durable(d, e)
    {
      if e in p.mem || e in p.inFlight {
        assert LogHas(d, p.logFile, e);
      }
      if p.imm.Some? && e in p.imm.value {
        assert LogHas(d, d.manifest.logNumber, e);
      }
      if InLogs(d, e) {
        var n :| LogHas(d, n, e);
      }
    }
  }

  lemma AppendKeeps(s: State, batch: seq<Entry>)
    requires Inv(s) && Enabled(s, Append(batch))
    ensures Inv(Do(s, Append(batch)))
  {
    var d, p := s.disk, s.process;
    var d' := Do(s, Append(batch)).disk;
    LiveIsDurable(d, p);
    assert TablesOk(d);
    assert forall e :: Live(d, p, e) ==> e.key.seqno <= p.lastSequence;
    hide InTables, LogsOk, TablesOk, Live;
    AppendLogs(d, p.logFile, batch, p.lastSequence);
    assert p.mem + [] == p.mem;
    assert forall n: nat :: Needed(d', n) <==> Needed(d, n);
    hide Needed, Durable;
  }

  lemma AcknowledgeKeeps(s: State)
    requires Inv(s) && Enabled(s, Acknowledge)
    ensures Inv(Do(s, Acknowledge))
  {
    var d, p := s.disk, s.process;
    LiveIsDurable(d, p);
    assert d.logs[p.logFile] == p.mem + p.inFlight == (p.mem + p.inFlight) + [];
    hide InTables, LogsOk, TablesOk, Durable, Needed;
    assert forall e :: e in p.inFlight ==> Live(d, p, e);
  }

  lemma QuietKeeps(s: State, step: Step)
    requires Inv(s) && Enabled(s, step)
    requires step.Allocate? || step.Unprotect? || step.Abandon? || step.Pin? || step.Unpin? || step.Crash? ||
             step.StartOpen?
    ensures Inv(Do(s, step))
  {
    assert TablesOk(s.disk);
    hide InTables, LogsOk, Durable, Needed, Consecutive, Ascending;
  }

  lemma SwitchKeeps(s: State)
    requires Inv(s) && Enabled(s, SwitchLog)
    ensures Inv(Do(s, SwitchLog))
  {
    var d, p, d' := s.disk, s.process, Do(s, SwitchLog).disk;
    assert TablesOk(d) && UpOk(d, p);
    assert p.mem + [] == p.mem;
    hide InTables, LogsOk, TablesOk, Durable, Ascending;
    assert SameView(d, d');
    SameViewKeeps(d, d');
    assert d.manifest.logNumber <= p.nextFile;
    assert forall n: nat :: Needed(d', n) <==> Needed(d, n) || n == p.nextFile;
    hide SameView, Needed;
    assert UpOk(d', Do(s, SwitchLog).process);
  }

  lemma BuildKeeps(s: State, t: nat, entries: set<Entry>)
    requires Inv(s) && Enabled(s, Build(t, entries))
    ensures Inv(Do(s, Build(t, entries)))
  {
    var d, p, d' := s.disk, s.process, Do(s, Build(t, entries)).disk;
    assert TablesOk(d) && UpOk(d, p);
    hide InTables, LogsOk, TablesOk, Durable, Ascending, Consecutive;
    assert SameView(d, d');
    SameViewKeeps(d, d');
    assert forall n: nat :: Needed(d', n) <==> Needed(d, n);
    hide SameView, Needed;
    assert UpOk(d', Do(s, Build(t, entries)).process);
  }

  lemma DeleteTableKeeps(s: State, t: nat)
    requires Inv(s) && Enabled(s, DeleteTable(t))
    ensures Inv(Do(s, DeleteTable(t)))
  {
    var d, p, d' := s.disk, s.process, Do(s, DeleteTable(t)).disk;
    assert TablesOk(d) && UpOk(d, p);
    hide InTables, LogsOk, TablesOk, Durable, Ascending, Consecutive;
    assert SameView(d, d');
    SameViewKeeps(d, d');
    assert forall n: nat :: Needed(d', n) <==> Needed(d, n);
    hide SameView, Needed;
    assert UpOk(d', Do(s, DeleteTable(t)).process);
  }

  lemma DeleteLogKeeps(s: State, n: nat)
    requires Inv(s) && Enabled(s, DeleteLog(n))
    ensures Inv(Do(s, DeleteLog(n)))
  {
    var d, p, d' := s.disk, s.process, Do(s, DeleteLog(n)).disk;
    assert TablesOk(d) && UpOk(d, p);
    hide InTables, LogsOk, TablesOk, Durable, Ascending, Consecutive;
    assert SameView(d, d');
    SameViewKeeps(d, d');
    assert forall m: nat :: Needed(d', m) <==> Needed(d, m);
    hide SameView, Needed;
    assert UpOk(d', Do(s, DeleteLog(n)).process);
  }

  /** Writing or deleting a table that no version names, or deleting a log that is not needed. */
  lemma FileStepKeeps(s: State, step: Step)
    requires Inv(s) && Enabled(s, step) && (step.Build? || step.DeleteTable? || step.DeleteLog?)
    ensures Inv(Do(s, step))
  {
    hide Inv, Enabled, Do;
    match step
    case Build(t, entries) => BuildKeeps(s, t, entries);
    case DeleteTable(t) => DeleteTableKeeps(s, t);
    case DeleteLog(n) => DeleteLogKeeps(s, n);
  }

  lemma InstallFlushKeeps(s: State)
    requires Inv(s) && Enabled(s, InstallFlush)
    ensures Inv(Do(s, InstallFlush))
    ensures forall e :: Durable(s.disk, e) <==> Durable(Do(s, InstallFlush).disk, e)
  {
    var d, p, s' := s.disk, s.process, Do(s, InstallFlush);
    var t := p.installing.value;
    var d', p', P := s'.disk, s'.process, d.manifest.logNumber;
    if p.imm.value == [] {
      SameTables(d, d', d.manifest.files);
      assert d'.manifest.files == d.manifest.files;
    } else {
      OneMoreTable(d, d', d.manifest.files, t);
    }
    assert TablesOk(d) && LogsOk(d);
    assert forall e :: e in p.imm.value <==> LogHas(d, P, e);
    forall n: nat
      ensures Needed(d', n) <==> n == p.logFile
    {
      assert Needed(d', n) ==> Needed(d, n);
    }
    assert forall n: nat, e :: LogHas(d', n, e) <==> n == p.logFile && LogHas(d, n, e);
    hide InTables;
    assert TablesOk(d');
    assert LogsOk(d');
    assert UpOk(d', p');
    LiveIsDurable(d, p);
    LiveIsDurable(d', p');
    assert forall e :: Live(d, p, e) <==> Live(d', p', e);
    hide TablesOk, LogsOk, UpOk, Live, Durable;
  }

  lemma OneMoreTable(d: Disk, d': Disk, files: set<nat>, t: nat)
    requires d'.tables == d.tables && t in d.tables
    ensures forall e :: InTables(d', files + {t}, e) <==> InTables(d, files, e) || e in d.tables[t]
  {
    forall e
      ensures InTables(d', files + {t}, e) <==> InTables(d, files, e) || e in d.tables[t]
    {
      if InTables(d, files, e) {
        var t' :| t' in files && t' in d.tables && e in d.tables[t'];
        assert t' in files + {t};
      }
      if e in d.tables[t] {
        assert t in files + {t};
      }
    }
  }

  /** A compaction changes the tables and nothing else; what its outputs leave out is dropped. */
  lemma InstallCompactionKeeps(s: State, inputs: set<nat>, outputs: set<nat>)
    requires Inv(s) && Enabled(s, InstallCompaction(inputs, outputs))
    ensures Inv(Do(s, InstallCompaction(inputs, outputs)))
  {
    var d, p, s' := s.disk, s.process, Do(s, InstallCompaction(inputs, outputs));
    var d', files, files' := s'.disk, d.manifest.files, s'.disk.manifest.files;
    assert TablesOk(d) && LogsOk(d);
    forall e
      ensures InTables(d', files', e) ==> InTables(d, files, e)
      ensures InTables(d, files, e) ==> InTables(d', files', e) || e in s'.dropped
    {
      CompactedEntry(s, inputs, outputs, e);
    }
    forall e | e in s'.dropped && e !in s.dropped
      ensures InTables(d, files, e)
    {
      DroppedEntry(s, inputs, outputs, e);
    }
    assert forall n: nat :: Needed(d', n) <==> Needed(d, n);
    assert forall n: nat, e :: LogHas(d', n, e) <==> LogHas(d, n, e);
    assert forall e :: InLogs(d', e) <==> InLogs(d, e);
    hide InTables, InLogs;
    assert TablesOk(d');
    assert LogsOk(d');
    hide TablesOk, LogsOk, Needed;
  }

  lemma DroppedEntry(s: State, inputs: set<nat>, outputs: set<nat>, e: Entry)
    requires Enabled(s, InstallCompaction(inputs, outputs))
    requires e in Do(s, InstallCompaction(inputs, outputs)).dropped && e !in s.dropped
    ensures InTables(s.disk, s.disk.manifest.files, e)
  {
    var d := s.disk;
    var t :| t in inputs && t in d.tables && e in d.tables[t];
    assert t in d.manifest.files;
  }

  lemma CompactedEntry(s: State, inputs: set<nat>, outputs: set<nat>, e: Entry)
    requires Enabled(s, InstallCompaction(inputs, outputs))
    ensures var s' := Do(s, InstallCompaction(inputs, outputs));
            var d, d' := s.disk, s'.disk;
            && (InTables(d', d'.manifest.files, e) ==> InTables(d, d.manifest.files, e))
            && (InTables(d, d.manifest.files, e) ==> InTables(d', d'.manifest.files, e) || e in s'.dropped)
  {
    var s' := Do(s, InstallCompaction(inputs, outputs));
    var d, files := s.disk, s.disk.manifest.files;
    if InTables(s'.disk, s'.disk.manifest.files, e) {
      var t :| t in files - inputs + outputs && t in d.tables && e in d.tables[t];
      if t in outputs {
        assert InTables(d, inputs, e);
        var t' :| t' in inputs && t' in d.tables && e in d.tables[t'];
        assert t' in files;
      }
    }
    if InTables(d, files, e) && e !in s'.dropped {
      var t :| t in files && t in d.tables && e in d.tables[t];
      if t in inputs {
        assert InTables(d, outputs, e);
        var t' :| t' in outputs && t' in d.tables && e in d.tables[t'];
        assert t' in files - inputs + outputs;
      } else {
        assert t in files - inputs + outputs;
      }
    }
  }

  // Recovery

  lemma {:induction false} PiecesCover(log: seq<Entry>, cuts: seq<nat>, e: Entry)
    requires CutsOk(log, cuts)
    ensures e in log <==> exists i :: 0 <= i < |cuts| && e in Pieces(log, cuts)[i]
  {
    if e in log {
      var k :| 0 <= k < |log| && log[k] == e;
      var i := PieceOf(log, cuts, k, |cuts| - 1);
      AtPiece(log, cuts, i, k);
    }
  }

  lemma AtPiece(log: seq<Entry>, cuts: seq<nat>, i: nat, k: nat)
    requires CutsOk(log, cuts) && i < |cuts| && (if i == 0 then 0 else cuts[i - 1]) <= k < cuts[i]
    ensures log[k] in Pieces(log, cuts)[i]
  {
    var from := if i == 0 then 0 else cuts[i - 1];
    assert Pieces(log, cuts)[i] == log[from..cuts[i]];
    assert log[from..cuts[i]][k - from] == log[k];
  }

  lemma {:induction false} PieceOf(log: seq<Entry>, cuts: seq<nat>, k: nat, n: nat) returns (i: nat)
    requires CutsOk(log, cuts) && n < |cuts| && k < cuts[n]
    ensures i < |cuts| && (if i == 0 then 0 else cuts[i - 1]) <= k < cuts[i]
  {
    if n == 0 || k >= cuts[n - 1] {
      i := n;
    } else {
      i := PieceOf(log, cuts, k, n - 1);
    }
  }

  /** Replaying a log writes tables that no version names and that hold exactly the log. */
  lemma ReplayKeeps(s: State, n: nat, cuts: seq<nat>)
    requires Inv(s) && Enabled(s, ReplayLog(n, cuts))
    ensures Inv(Do(s, ReplayLog(n, cuts)))
    ensures forall e :: Durable(s.disk, e) <==> Durable(Do(s, ReplayLog(n, cuts)).disk, e)
  {
    var d, p, s' := s.disk, s.process, Do(s, ReplayLog(n, cuts));
    var d', p' := s'.disk, s'.process;
    ReplayView(s, n, cuts);
    assert forall m: nat :: Needed(d', m) <==> Needed(d, m);
    hide DiskOk, Durable, InTables, Pieces, WithTables, Needed, CutsOk, SameView;
    SameViewKeeps(d, d');
    forall e
      ensures InTables(d', p'.made, e) <==> InTables(d, p.made, e) || e in d.logs[n]
    {
      ReplayedEntry(d, p.made, p.nextFile, n, cuts, e);
    }
    ReplayNumbers(s, n, cuts);
    MadeNext(s, n, cuts);
    hide Range, MadeInOrder;
    OpeningNext(d, p, d', p', n);
  }

  lemma OpeningNext(d: Disk, p: Process, d': Disk, p': Process, n: nat)
    requires p.Opening? && p'.Opening? && OpeningOk(d, p) && d'.manifest == d.manifest && d'.logs == d.logs
    requires Needed(d, n)
    requires n !in p.replayed && forall m: nat :: Needed(d, m) && m !in p.replayed ==> n <= m
    requires p'.nextFile >= p.nextFile && p'.nextFile > n && p'.replayed == p.replayed + {n}
    requires p'.lastSequence == MaxSequence(d.logs[n], p.lastSequence)
    requires forall e :: InTables(d', p'.made, e) <==> InTables(d, p.made, e) || e in d.logs[n]
    requires forall t :: t in p'.made ==> t in d'.tables && d.manifest.nextFile < t < p'.nextFile
    requires MadeInOrder(d', p'.made)
    ensures OpeningOk(d', p')
  {
    hide InTables, MaxSequence, MadeInOrder;
    NextReplayed(d, p, n);
    forall e | InTables(d', p'.made, e)
      ensures exists m :: m in p'.replayed && m in d'.logs && e in d'.logs[m]
    {
      if e in d.logs[n] {
        assert n in p'.replayed;
      } else {
        var m :| m in p.replayed && m in d.logs && e in d.logs[m];
        assert m in p'.replayed;
      }
    }
  }

  /** The last sequence number is that of the manifest or of a replayed entry. */
  lemma NextReplayed(d: Disk, p: Process, n: nat)
    requires p.Opening? && OpeningOk(d, p) && Needed(d, n)
    ensures var last := MaxSequence(d.logs[n], p.lastSequence);
            last == d.manifest.lastSequence || exists m, e :: m in p.replayed + {n} && m in d.logs &&
                                                              e in d.logs[m] && e.key.seqno == last
  {
    var last := MaxSequence(d.logs[n], p.lastSequence);
    if last != p.lastSequence {
      var e :| e in d.logs[n] && e.key.seqno == last;
      hide OpeningOk, MaxSequence;
      assert n in p.replayed + {n} && n in d.logs && e in d.logs[n];
    } else if p.lastSequence != d.manifest.lastSequence {
      var m, e :| m in p.replayed && m in d.logs && e in d.logs[m] && e.key.seqno == p.lastSequence;
      hide OpeningOk, MaxSequence;
      assert m in p.replayed + {n} && m in d.logs && e in d.logs[m];
    }
  }

  lemma {:induction false} CutsAscend(log: seq<Entry>, cuts: seq<nat>, i: nat, j: nat)
    requires CutsOk(log, cuts) && i <= j < |cuts|
    ensures cuts[i] <= cuts[j]
    decreases j
  {
    if i < j {
      CutsAscend(log, cuts, i, j - 1);
    }
  }

  lemma PieceAt(log: seq<Entry>, cuts: seq<nat>, i: nat, a: Entry) returns (k: nat)
    requires CutsOk(log, cuts) && i < |cuts| && a in Pieces(log, cuts)[i]
    ensures (if i == 0 then 0 else cuts[i - 1]) <= k < cuts[i] <= |log| && log[k] == a
  {
    var from := if i == 0 then 0 else cuts[i - 1];
    var x :| 0 <= x < |Pieces(log, cuts)[i]| && Pieces(log, cuts)[i][x] == a;
    k := from + x;
  }

  lemma PiecesInOrder(log: seq<Entry>, cuts: seq<nat>, i: nat, j: nat, a: Entry, b: Entry)
    requires Ascending(log) && CutsOk(log, cuts) && i < j < |cuts| && a in Pieces(log, cuts)[i]
    requires b in Pieces(log, cuts)[j]
    ensures a.key.seqno < b.key.seqno
  {
    hide CutsOk, Pieces;
    CutsAscend(log, cuts, i, j - 1);
    var x := PieceAt(log, cuts, i, a);
    var y := PieceAt(log, cuts, j, b);
  }

  lemma TablesAt(tables: map<nat, set<Entry>>, first: nat, ps: seq<seq<Entry>>, t: nat)
    ensures t < first && t in tables ==> t in WithTables(tables, first, ps)
    ensures t < first && t in tables ==> WithTables(tables, first, ps)[t] == tables[t]
    ensures first <= t < first + |ps| ==> t in WithTables(tables, first, ps)
    ensures first <= t < first + |ps| ==> WithTables(tables, first, ps)[t] == EntrySet(ps[t - first])
  {
  }

  /** The tables of one log come after those of the logs before it, and in the order of their pieces. */
  lemma MadeNext(s: State, n: nat, cuts: seq<nat>)
    requires Inv(s) && Enabled(s, ReplayLog(n, cuts))
    ensures var s' := Do(s, ReplayLog(n, cuts)); MadeInOrder(s'.disk, s'.process.made)
  {
    var d, p, s' := s.disk, s.process, Do(s, ReplayLog(n, cuts));
    var d', made, log := s'.disk, s'.process.made, d.logs[n];
    assert LogsOk(d) && OpeningOk(d, p) && Ascending(log) && MadeInOrder(d, p.made);
    hide LogsOk, TablesOk, Durable, Pieces, CutsOk, Ascending, WithTables, MadeInOrder, InTables, Needed;
    forall t, u, a, b | t in made && u in made && t < u && t in d'.tables && u in d'.tables && a in d'.tables[t] &&
                        b in d'.tables[u]
      ensures a.key.seqno < b.key.seqno
    {
      MadePair(d, p, n, log, cuts, Pieces(log, cuts), d'.tables, made, t, u, a, b);
    }
    assert MadeInOrder(d', made) by {
      OrderIs(d', made);
    }
  }

  lemma OrderIs(d: Disk, made: set<nat>)
    ensures MadeInOrder(d, made) <==>
            forall t, u, a, b :: t in made && u in made && t < u && t in d.tables && u in d.tables &&
                                 a in d.tables[t] && b in d.tables[u] ==>
                                   a.key.seqno < b.key.seqno
  {
  }

  lemma MadePair(d: Disk, p: Process, n: nat, log: seq<Entry>, cuts: seq<nat>, ps: seq<seq<Entry>>,
                 tables: map<nat, set<Entry>>, made: set<nat>, t: nat, u: nat, a: Entry, b: Entry)
    requires p.Opening? && LogsOk(d) && OpeningOk(d, p) && Needed(d, n) && n !in p.replayed && n in d.logs
    requires log == d.logs[n] && CutsOk(log, cuts)
    requires ps == Pieces(log, cuts) && tables == WithTables(d.tables, p.nextFile, ps)
    requires forall x :: x in made ==> x in p.made || p.nextFile <= x < p.nextFile + |ps|
    requires t in made && u in made && t < u && t in tables && u in tables && a in tables[t] && b in tables[u]
    ensures a.key.seqno < b.key.seqno
  {
    hide WithTables, LogsOk, OpeningOk, Pieces, CutsOk, Ascending, Needed, Range, MadeInOrder;
    MadeFacts(d, p, n);
    TablesAt(d.tables, p.nextFile, ps, t);
    TablesAt(d.tables, p.nextFile, ps, u);
    if u < p.nextFile {
      assert MadeInOrder(d, p.made) && t in p.made && u in p.made;
      OrderIs(d, p.made);
    } else if p.nextFile <= t {
      PiecesInOrder(log, cuts, t - p.nextFile, u - p.nextFile, a, b);
    } else {
      assert t in p.made;
      MixedPair(d, p, n, cuts, t, a, u - p.nextFile, b);
    }
  }

  lemma MadeFacts(d: Disk, p: Process, n: nat)
    requires p.Opening? && LogsOk(d) && OpeningOk(d, p) && Needed(d, n)
    ensures MadeInOrder(d, p.made) && Ascending(d.logs[n])
    ensures forall t :: t in p.made ==> t in d.tables && t < p.nextFile
  {
    hide MadeInOrder, Ascending, InTables;
  }

  lemma MixedPair(d: Disk, p: Process, n: nat, cuts: seq<nat>, t: nat, a: Entry, i: nat, b: Entry)
    requires p.Opening? && LogsOk(d) && OpeningOk(d, p) && Needed(d, n) && n !in p.replayed && CutsOk(d.logs[n], cuts)
    requires t in p.made && t in d.tables && a in d.tables[t] && i < |cuts| && b in Pieces(d.logs[n], cuts)[i]
    ensures a.key.seqno < b.key.seqno
  {
    assert InTables(d, p.made, a);
    hide LogsOk, OpeningOk, Pieces, CutsOk, Needed, InTables;
    InPiece(d.logs[n], cuts, i, b);
    BeforeLog(d, p, n, a, b);
  }

  lemma InPiece(log: seq<Entry>, cuts: seq<nat>, i: nat, e: Entry)
    requires CutsOk(log, cuts) && i < |cuts| && e in Pieces(log, cuts)[i]
    ensures e in log
  {
  }

  lemma BeforeLog(d: Disk, p: Process, n: nat, a: Entry, b: Entry)
    requires LogsOk(d) && p.Opening? && OpeningOk(d, p) && Needed(d, n) && n !in p.replayed && InTables(d, p.made, a)
    requires b in d.logs[n]
    ensures a.key.seqno < b.key.seqno
  {
    hide InTables, MadeInOrder, Ascending;
    var m :| m in p.replayed && m in d.logs && a in d.logs[m];
    assert LogHas(d, m, a) && LogHas(d, n, b);
  }

  lemma WithTablesView(d: Disk, first: nat, ps: seq<seq<Entry>>)
    requires d.manifest.files <= d.tables.Keys && forall t :: t in d.manifest.files ==> t < first
    ensures SameView(d, d.(tables := WithTables(d.tables, first, ps)))
  {
    hide WithTables;
    forall t | t in d.manifest.files
      ensures t in WithTables(d.tables, first, ps) && WithTables(d.tables, first, ps)[t] == d.tables[t]
    {
      TablesAt(d.tables, first, ps, t);
    }
  }

  lemma ReplayView(s: State, n: nat, cuts: seq<nat>)
    requires Inv(s) && Enabled(s, ReplayLog(n, cuts))
    ensures SameView(s.disk, Do(s, ReplayLog(n, cuts)).disk)
  {
    var d, p := s.disk, s.process;
    hide Pieces, InTables, LogsOk, Durable, MadeInOrder, CutsOk, EntrySet, WithTables, Range, MaxSequence, SameView;
    assert TablesOk(d) && OpeningOk(d, p);
    WithTablesView(d, p.nextFile, Pieces(d.logs[n], cuts));
  }

  lemma ReplayNumbers(s: State, n: nat, cuts: seq<nat>)
    requires Inv(s) && Enabled(s, ReplayLog(n, cuts))
    ensures var s' := Do(s, ReplayLog(n, cuts));
            forall t :: t in s'.process.made ==>
                          t in s'.disk.tables && s.disk.manifest.nextFile < t < s'.process.nextFile
  {
    hide Pieces, InTables, LogsOk, TablesOk, Durable;
  }

  lemma ReplayedEntry(d: Disk, made: set<nat>, first: nat, n: nat, cuts: seq<nat>, e: Entry)
    requires n in d.logs && CutsOk(d.logs[n], cuts) && forall t :: t in made ==> t in d.tables && t < first
    ensures var ps := Pieces(d.logs[n], cuts);
            var d' := d.(tables := WithTables(d.tables, first, ps));
            InTables(d', made + Range(first, |ps|), e) <==> InTables(d, made, e) || e in d.logs[n]
  {
    PiecesCover(d.logs[n], cuts, e);
    var ps := Pieces(d.logs[n], cuts);
    hide Pieces, CutsOk, EntrySet;
    MoreTables(d, made, first, ps, e);
  }

  lemma MoreTables(d: Disk, made: set<nat>, first: nat, ps: seq<seq<Entry>>, e: Entry)
    requires forall t :: t in made ==> t in d.tables && t < first
    ensures var d' := d.(tables := WithTables(d.tables, first, ps));
            InTables(d', made + Range(first, |ps|), e)
            <==> InTables(d, made, e) || exists i :: 0 <= i < |ps| && e in ps[i]
  {
    var d' := d.(tables := WithTables(d.tables, first, ps));
    var made' := made + Range(first, |ps|);
    if InTables(d, made, e) {
      var t :| t in made && t in d.tables && e in d.tables[t];
      assert t in made' && t in d'.tables && e in d'.tables[t];
    }
    if i :| 0 <= i < |ps| && e in ps[i] {
      var t := first + i;
      assert t in made' && t in d'.tables && e in d'.tables[t];
    }
    if InTables(d', made', e) {
      var t :| t in made' && t in d'.tables && e in d'.tables[t];
      if t in made {
        assert d'.tables[t] == d.tables[t];
      } else {
        assert e in ps[t - first];
      }
    }
  }

  /** When every log is replayed, the recovered database holds exactly what was durable. */
  lemma FinishOpenKeeps(s: State)
    requires Inv(s) && Enabled(s, FinishOpen)
    ensures Inv(Do(s, FinishOpen))
    ensures forall e :: Durable(s.disk, e) <==> Live(Do(s, FinishOpen).disk, Do(s, FinishOpen).process, e)
    ensures forall e :: Durable(s.disk, e) <==> Durable(Do(s, FinishOpen).disk, e)
  {
    var d, p, s' := s.disk, s.process, Do(s, FinishOpen);
    var d', p' := s'.disk, s'.process;
    FinishedLogs(d, p);
    FinishedTables(d, p, d');
    assert forall n: nat :: Needed(d', n) <==> n == p.nextFile;
    hide InTables, TableEntries, TablesOk, OpeningOk, MadeInOrder;
    assert forall n: nat, e :: !LogHas(d', n, e);
    assert LogsOk(d');
    hide LogsOk;
    assert UpOk(d', p');
    LiveIsDurable(d', p');
    hide UpOk, Needed;
    FinishedAcks(s);
  }

  lemma FinishedLogs(d: Disk, p: Process)
    requires p.Opening? && OpeningOk(d, p) && TablesOk(d) && forall n: nat :: Needed(d, n) ==> n in p.replayed
    ensures forall n: nat :: n in d.logs ==> n < p.nextFile
    ensures d.manifest.logNumber < p.nextFile
  {
    hide InTables, MadeInOrder;
    forall n: nat | n in d.logs
      ensures n < p.nextFile
    {
      if n >= d.manifest.logNumber {
        assert Needed(d, n);
      }
    }
  }

  /** The tables of the recovered version. */
  lemma FinishedTables(d: Disk, p: Process, d': Disk)
    requires p.Opening? && OpeningOk(d, p) && TablesOk(d) && forall n: nat :: Needed(d, n) ==> n in p.replayed
    requires d'.tables == d.tables
    requires d'.manifest == Record(d.manifest.files + p.made, p.nextFile, p.nextFile + 1, p.lastSequence)
    ensures TablesOk(d') && forall e :: InTables(d', d'.manifest.files, e) <==> Durable(d, e)
  {
    forall e
      ensures InTables(d', d'.manifest.files, e) <==> Durable(d, e)
    {
      RecoveredEntry(d, d', p, e);
    }
    hide InTables, MadeInOrder;
    assert forall n: nat, e :: LogHas(d, n, e) ==> n in p.replayed && e in d.logs[n];
  }

  lemma FinishedAcks(s: State)
    requires Inv(s) && Enabled(s, FinishOpen)
    ensures AckedOk(Do(s, FinishOpen))
  {
    var d, p, s' := s.disk, s.process, Do(s, FinishOpen);
    assert p.lastSequence >= d.manifest.lastSequence;
    FinishedTables(d, p, s'.disk);
    forall e
      ensures e in TableEntries(d, d.manifest.files + p.made) <==> InTables(s'.disk, s'.disk.manifest.files, e)
    {
    }
    assert AckedOk(s);
    hide InTables, TableEntries, OpeningOk, LogsOk, Needed, DiskOk, InLogs;
  }

  lemma RecoveredEntry(d: Disk, d': Disk, p: Process, e: Entry)
    requires p.Opening? && OpeningOk(d, p) && (forall n: nat :: Needed(d, n) ==> n in p.replayed)
    requires d'.tables == d.tables && d'.manifest.files == d.manifest.files + p.made
    ensures InTables(d', d'.manifest.files, e) <==> Durable(d, e)
  {
    if InTables(d', d'.manifest.files, e) {
      var t :| t in d'.manifest.files && t in d.tables && e in d.tables[t];
      if t in p.made {
        assert InTables(d, p.made, e);
        var n: nat :| n in p.replayed && n in d.logs && e in d.logs[n];
        assert LogHas(d, n, e);
      }
    }
    if InTables(d, d.manifest.files, e) {
      var t :| t in d.manifest.files && t in d.tables && e in d.tables[t];
      assert t in d'.manifest.files;
    }
    if InLogs(d, e) {
      var n: nat :| LogHas(d, n, e);
      assert InTables(d, p.made, e);
      var t :| t in p.made && t in d.tables && e in d.tables[t];
      assert t in d'.manifest.files;
    }
  }

  /** Every step keeps the invariant. */
  lemma StepKeeps(s: State, step: Step)
    requires Inv(s) && Enabled(s, step)
    ensures Inv(Do(s, step))
  {
    hide Inv, Enabled, Do;
    match step
    case Append(batch) => AppendKeeps(s, batch);
    case Acknowledge => AcknowledgeKeeps(s);
    case SwitchLog => SwitchKeeps(s);
    case Build(_, _) => FileStepKeeps(s, step);
    case DeleteTable(_) => FileStepKeeps(s, step);
    case DeleteLog(_) => FileStepKeeps(s, step);
    case InstallFlush => InstallFlushKeeps(s);
    case InstallCompaction(inputs, outputs) => InstallCompactionKeeps(s, inputs, outputs);
    case ReplayLog(n, cuts) => ReplayKeeps(s, n, cuts);
    case FinishOpen => FinishOpenKeeps(s);
    case _ => QuietKeeps(s, step);
  }

  ghost predicate RunsTo(s: State, steps: seq<Step>, s': State)
    decreases |steps|
  {
    if steps == [] then s' == s
    else Enabled(s, steps[0]) && RunsTo(Do(s, steps[0]), steps[1..], s')
  }

  /**
   Durability over every run: after any steps and crashes from a new database, every
   acknowledged entry is in a table of the current version or in a log that recovery replays,
   unless a compaction dropped it; every table that a version in use names exists; and while the
   database runs, what it holds is what recovery would find.
   */
  lemma {:induction false} RunKeeps(s: State, steps: seq<Step>, s': State)
    requires Inv(s) && RunsTo(s, steps, s')
    ensures Inv(s')
    decreases |steps|
  {
    if steps != [] {
      hide Inv, Enabled, Do;
      StepKeeps(s, steps[0]);
      RunKeeps(Do(s, steps[0]), steps[1..], s');
    }
  }

  lemma DurableRun(s: State, steps: seq<Step>, s': State)
    requires Init(s) && RunsTo(s, steps, s')
    ensures forall e :: e in s'.acked ==> Durable(s'.disk, e) || e in s'.dropped
    ensures s'.disk.manifest.files <= s'.disk.tables.Keys
    ensures s'.process.Up? ==> s'.process.pinned <= s'.disk.tables.Keys && s'.process.built <= s'.disk.tables.Keys
    ensures s'.process.Up? && s'.process.installing.Some? ==>
              InstallingOk(s'.disk, s'.process, s'.process.installing.value)
    ensures s'.process.Up? ==> forall e :: Live(s'.disk, s'.process, e) <==> Durable(s'.disk, e)
    ensures s'.process.Up? ==> forall e :: e in s'.acked ==> e.key.seqno <= s'.process.lastSequence
  {
    InitOk(s);
    RunKeeps(s, steps, s');
    assert TablesOk(s'.disk);
    if s'.process.Up? {
      LiveIsDurable(s'.disk, s'.process);
    }
  }

  /** Crashes and recoveries, with any number of crashes during recovery, change nothing that is durable. */
  lemma {:induction false} RecoveryRestores(s: State, steps: seq<Step>, s': State)
    requires Inv(s) && RunsTo(s, steps, s') && forall step :: step in steps ==> Recovers(step)
    ensures forall e :: Durable(s.disk, e) <==> Durable(s'.disk, e)
    decreases |steps|
  {
    if steps != [] {
      hide Inv, Enabled, Durable, Do;
      assert steps[0] in steps;
      StepKeeps(s, steps[0]);
      StepRestores(s, steps[0]);
      RecoveryRestores(Do(s, steps[0]), steps[1..], s');
    }
  }

  ghost predicate Recovers(step: Step) {
    step.Crash? || step.StartOpen? || step.ReplayLog? || step.FinishOpen?
  }

  lemma StepRestores(s: State, step: Step)
    requires Inv(s) && Enabled(s, step) && Recovers(step)
    ensures forall e :: Durable(s.disk, e) <==> Durable(Do(s, step).disk, e)
  {
    hide Inv, Durable, CutsOk, Pieces, WithTables, Range, MaxSequence, TableEntries;
    match step
    case Crash =>
    case StartOpen =>
    case ReplayLog(n, cuts) => ReplayKeeps(s, n, cuts);
    case FinishOpen => FinishOpenKeeps(s);
  }
}
