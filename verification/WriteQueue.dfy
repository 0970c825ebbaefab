/**
 Group commit: writers wait in a queue; the one in front logs its own batch together with those
 behind it, and they all leave the queue at once.
 */
module WriteQueue {
  import opened Keys
  import opened Coding
  import R = Reads
  import opened Drops
  import opened WriteBatches
  import opened Histories

  /** A waiting write; one without a batch only asks for the memtable to be compacted. */
  datatype Writer = Writer(batch: Option<seq<Op>>, sync: bool)

  ghost predicate WriterOk(w: Writer) {
    w.batch.Some? ==> |w.batch.value| < TWO32 && forall op :: op in w.batch.value ==> OpOk(op)
  }

  function ByteSize(ops: seq<Op>): (n: nat)
    ensures n >= HEADER + |ops|
  {
    OpsLength(ops);
    HEADER + |EncodeOps(ops)|
  }

  lemma {:induction false} OpsLength(ops: seq<Op>)
    ensures |EncodeOps(ops)| >= |ops|
  {
    if ops != [] {
      OpsLength(ops[..|ops| - 1]);
    }
  }

  /** How large a group may grow that starts with a batch of the given size. */
  function MaxSize(size: nat): nat {
    if size <= 0x2_0000 then size + 0x2_0000 else 0x10_0000
  }

  /** The operations of the writers, one batch after another. */
  function OpsOf(ws: seq<Writer>): seq<Op> {
    if ws == [] then []
    else OpsOf(ws[..|ws| - 1]) + if ws[|ws| - 1].batch.Some? then ws[|ws| - 1].batch.value else []
  }

  function TotalSize(ws: seq<Writer>): nat {
    if ws == [] then 0
    else TotalSize(ws[..|ws| - 1]) + if ws[|ws| - 1].batch.Some? then ByteSize(ws[|ws| - 1].batch.value) else 0
  }

  lemma {:induction false} TotalCoversOps(ws: seq<Writer>)
    ensures |OpsOf(ws)| <= TotalSize(ws)
  {
    if ws != [] {
      hide ByteSize;
      TotalCoversOps(ws[..|ws| - 1]);
    }
  }

  /** A batch with a sync request may join only a group that syncs, and the group may not grow too large. */
  ghost predicate Joins(q: seq<Writer>, k: nat)
    requires 0 < k < |q| && q[0].batch.Some?
  {
    (q[k].sync ==> q[0].sync) && (q[k].batch.Some? ==> TotalSize(q[..k + 1]) <= MaxSize(ByteSize(q[0].batch.value)))
  }

  /** The first `k` writers form the group: the longest run that may join the one in front. */
  ghost predicate IsGroup(q: seq<Writer>, k: nat)
    requires q != [] && q[0].batch.Some?
  {
    0 < k <= |q| && (forall i :: 0 < i < k ==> Joins(q, i)) && (k < |q| ==> !Joins(q, k))
  }

  method BuildBatchGroup(q: seq<Writer>) returns (ops: seq<Op>, k: nat)
    requires q != [] && q[0].batch.Some?
    ensures IsGroup(q, k) && ops == OpsOf(q[..k])
  {
    hide ByteSize;
    var first := q[0];
    ops := first.batch.value;
    var size := ByteSize(first.batch.value);
    var maxSize := MaxSize(size);
    k := 1;
    FirstOnly(q);
    while k < |q|
      invariant 1 <= k <= |q| && ops == OpsOf(q[..k]) && size == TotalSize(q[..k])
      invariant forall i :: 0 < i < k ==> Joins(q, i)
    {
      var w := q[k];
      assert q[..k + 1][..k] == q[..k] && q[..k + 1][k] == w;
      if w.sync && !first.sync {
        break;
      }
      if w.batch.Some? {
        size := size + ByteSize(w.batch.value);
        if size > maxSize {
          break;
        }
        ops := ops + w.batch.value;
      } else {
        assert ops + [] == ops;
      }
      k := k + 1;
    }
  }

  lemma FirstOnly(q: seq<Writer>)
    requires q != [] && q[0].batch.Some?
    ensures OpsOf(q[..1]) == q[0].batch.value && TotalSize(q[..1]) == ByteSize(q[0].batch.value)
  {
    hide ByteSize;
    assert q[..1][..0] == [];
    assert OpsOf([]) == [] && TotalSize([]) == 0;
  }

  /** The queue and the sizes determine the group. */
  lemma GroupUnique(q: seq<Writer>, a: nat, b: nat)
    requires q != [] && q[0].batch.Some? && IsGroup(q, a)
    ensures IsGroup(q, b) <==> a == b
  {
    hide Joins;
    if 0 < b < a {
      assert Joins(q, b);
    } else if a < b <= |q| {
      assert !Joins(q, a);
    }
  }

  /**
   A group syncs if any of its members asked for it, and takes at most 1 MB unless one batch alone is
   larger. A small batch in front waits for at most 128 KB more.
   */
  lemma GroupFits(q: seq<Writer>, k: nat)
    requires q != [] && q[0].batch.Some? && IsGroup(q, k) && forall w :: w in q ==> WriterOk(w)
    ensures forall i :: 0 <= i < k && q[i].sync ==> q[0].sync
    ensures |OpsOf(q[..k])| < TWO32 && forall op :: op in OpsOf(q[..k]) ==> OpOk(op)
    ensures TotalSize(q[..k]) <= ByteSize(q[0].batch.value) || TotalSize(q[..k]) <= 0x10_0000
    ensures ByteSize(q[0].batch.value) <= 0x2_0000 ==> TotalSize(q[..k]) <= ByteSize(q[0].batch.value) + 0x2_0000
  {
    forall i | 0 <= i < k && q[i].sync
      ensures q[0].sync
    {
      assert i > 0 ==> Joins(q, i);
    }
    assert WriterOk(q[0]);
    GroupCount(q, k);
    OpsOk(q[..k]);
  }

  lemma {:induction false} GroupCount(q: seq<Writer>, k: nat)
    requires q != [] && q[0].batch.Some? && 0 < k <= |q| && (forall i :: 0 < i < k ==> Joins(q, i)) && WriterOk(q[0])
    ensures |OpsOf(q[..k])| < TWO32
    ensures TotalSize(q[..k]) <= ByteSize(q[0].batch.value) || TotalSize(q[..k]) <= 0x10_0000
    ensures ByteSize(q[0].batch.value) <= 0x2_0000 ==> TotalSize(q[..k]) <= ByteSize(q[0].batch.value) + 0x2_0000
    decreases k
  {
    FirstOnly(q);
    if k > 1 {
      assert Joins(q, k - 1);
      assert q[..k][..k - 1] == q[..k - 1];
      if q[k - 1].batch.Some? {
        TotalCoversOps(q[..k]);
        hide OpsOf, TotalSize, ByteSize;
      } else {
        GroupCount(q, k - 1);
        assert OpsOf(q[..k - 1]) + [] == OpsOf(q[..k - 1]);
      }
    }
  }

  lemma {:induction false} OpsOk(ws: seq<Writer>)
    requires forall w :: w in ws ==> WriterOk(w)
    ensures forall op :: op in OpsOf(ws) ==> OpOk(op)
    decreases |ws|
  {
    if ws != [] {
      assert WriterOk(ws[|ws| - 1]);
      OpsOk(ws[..|ws| - 1]);
    }
  }

  // The queue over time

  /** What an append that failed left in the log file: nothing, the whole record, or part of it. */
  datatype Left = Nothing | Whole | Part

  datatype Outcome = Written | NotLogged(left: Left) | NotSynced | Refused | NothingToWrite

  /** Writers that left the queue together, with the operations logged for them. */
  datatype Group = Group(members: seq<Writer>, first: nat, ops: seq<Op>, outcome: Outcome)

  /** The records of the log; behind part of a record, what follows is not told. */
  datatype Log = Intact(records: seq<Bytes>) | Damaged(records: seq<Bytes>)

  datatype Phase = Idle | Logging(size: nat, ops: seq<Op>)

  datatype State = State(
    queue: seq<Writer>, phase: Phase, lastSequence: nat, failed: bool,
    log: Log, mem: seq<Entry>,
    arrived: seq<Writer>, groups: seq<Group>)

  datatype Step = Arrive(w: Writer) | Begin(size: nat) | Finish(outcome: Outcome) | Refuse | Compact

  ghost predicate Enabled(s: State, step: Step) {
    match step
    case Arrive(w) => WriterOk(w)
    case Begin(k) =>
      && s.phase.Idle? && !s.failed && s.queue != [] && s.queue[0].batch.Some? && IsGroup(s.queue, k)
      && s.lastSequence + |OpsOf(s.queue[..k])| <= MAX_SEQUENCE
    case Finish(outcome) =>
      && s.phase.Logging? && 0 < s.phase.size <= |s.queue| && |s.phase.ops| < TWO32
      && s.lastSequence + |s.phase.ops| <= MAX_SEQUENCE
      && (outcome.Written? || outcome.NotLogged? || (outcome.NotSynced? && s.queue[0].sync))
    case Refuse => s.phase.Idle? && s.queue != []
    case Compact => s.phase.Idle? && !s.failed && s.queue != [] && s.queue[0].batch.None?
  }

  ghost function Do(s: State, step: Step): State
    requires Enabled(s, step)
  {
    match step
    case Arrive(w) => s.(queue := s.queue + [w], arrived := s.arrived + [w])
    case Begin(k) => s.(phase := Logging(k, OpsOf(s.queue[..k])))
    case Finish(outcome) =>
      var k, ops, first := s.phase.size, s.phase.ops, s.lastSequence + 1;
      s.(queue := s.queue[k..], phase := Idle, lastSequence := s.lastSequence + |ops|,
      failed := s.failed || outcome.NotSynced?,
                log := LogWith(s.log, Group(s.queue[..k], first, ops, outcome)),
                mem := MemWith(s.mem, Group(s.queue[..k], first, ops, outcome)),
                groups := s.groups + [Group(s.queue[..k], first, ops, outcome)])
    case Refuse => Leave(s, Refused)
    case Compact => Leave(s, NothingToWrite)
  }

  /** The writer in front leaves alone, and nothing is written. */
  ghost function Leave(s: State, outcome: Outcome): State
    requires s.queue != []
  {
    s.(queue := s.queue[1..], groups := s.groups + [Group(s.queue[..1], s.lastSequence + 1, [], outcome)])
  }

  /** The log and the memtable once a group is done. */
  function LogWith(log: Log, g: Group): Log {
    if log.Damaged? then log
    else if Tears(g) then Damaged(log.records)
    else if InLog(g) then Intact(log.records + [RepOf(g.first, g.ops)])
    else log
  }

  function MemWith(mem: seq<Entry>, g: Group): seq<Entry> {
    if g.outcome.Written? then mem + Entries(g.first, g.ops) else mem
  }

  function MembersOf(gs: seq<Group>): seq<Writer> {
    if gs == [] then [] else MembersOf(gs[..|gs| - 1]) + gs[|gs| - 1].members
  }

  function CountOf(gs: seq<Group>): nat {
    if gs == [] then 0 else CountOf(gs[..|gs| - 1]) + |gs[|gs| - 1].ops|
  }

  /** The group's whole record is in the log file. */
  predicate InLog(g: Group) {
    (g.outcome.Written? || g.outcome.NotSynced? || g.outcome == NotLogged(Whole)) && |g.ops| < TWO32 && g.first < TWO64
  }

  predicate Tears(g: Group) {
    g.outcome == NotLogged(Part)
  }

  function LogOf(gs: seq<Group>): Log {
    if gs == [] then Intact([]) else LogWith(LogOf(gs[..|gs| - 1]), gs[|gs| - 1])
  }

  /** The entries of the groups that succeeded. */
  function EntriesOf(gs: seq<Group>): seq<Entry> {
    if gs == [] then []
    else EntriesOf(gs[..|gs| - 1]) + if gs[|gs| - 1].outcome.Written?
         then Entries(gs[|gs| - 1].first, gs[|gs| - 1].ops) else []
  }

  ghost predicate GroupOk(g: Group) {
    && |g.ops| < TWO32 && 0 < g.first < TWO64 && g.members != [] && (forall op :: op in g.ops ==> OpOk(op))
    && (g.outcome.Written? || g.outcome.NotLogged? || g.outcome.NotSynced? ==>
          g.ops == OpsOf(g.members) && forall w :: w in g.members && w.sync ==> g.members[0].sync)
    && (g.outcome.Refused? || g.outcome.NothingToWrite? ==> g.ops == [] && |g.members| == 1)
  }

  /** Each group's numbers follow those of the groups before it. */
  ghost predicate Numbered(gs: seq<Group>) {
    forall i :: 0 <= i < |gs| ==> gs[i].first == CountOf(gs[..i]) + 1
  }

  /** What the groups so far explain: the last number, the log and the memtable. */
  ghost predicate GroupsOk(gs: seq<Group>, last: nat, log: Log, mem: seq<Entry>) {
    && (forall g :: g in gs ==> GroupOk(g)) && Numbered(gs) && last == CountOf(gs)
    && log == LogOf(gs) && mem == EntriesOf(gs)
  }

  ghost predicate PhaseOk(queue: seq<Writer>, phase: Phase) {
    phase.Logging? ==>
      && 0 < phase.size <= |queue| && phase.ops == OpsOf(queue[..phase.size]) && |phase.ops| < TWO32
      && (forall op :: op in phase.ops ==> OpOk(op))
      && (forall i :: 0 <= i < phase.size && queue[i].sync ==> queue[0].sync)
  }

  /** Those who came are those who left and then those who wait. */
  ghost predicate Arrivals(arrived: seq<Writer>, left: seq<Writer>, queue: seq<Writer>) {
    arrived == left + queue
  }

  /** After a failed sync every writer is refused. */
  ghost predicate Stopped(gs: seq<Group>, phase: Phase, failed: bool) {
    && (failed <==> exists g :: g in gs && g.outcome.NotSynced?) && (failed ==> phase.Idle?)
    && forall i, j :: 0 <= i < j < |gs| && gs[i].outcome.NotSynced? ==> gs[j].outcome.Refused?
  }

  lemma StoppedSnoc(gs: seq<Group>, phase: Phase, failed: bool, g: Group)
    requires Stopped(gs, phase, failed) && (failed ==> g.outcome.Refused?)
    ensures Stopped(gs + [g], Idle, failed || g.outcome.NotSynced?)
  {
    assert g in gs + [g];
    assert forall i :: 0 <= i < |gs| ==> (gs + [g])[i] in gs;
    assert forall x :: x in gs + [g] ==> x in gs || x == g;
  }

  ghost predicate Inv(s: State) {
    && Stopped(s.groups, s.phase, s.failed)
    && Arrivals(s.arrived, MembersOf(s.groups), s.queue) && (forall w :: w in s.queue ==> WriterOk(w))
    && GroupsOk(s.groups, s.lastSequence, s.log, s.mem) && s.lastSequence <= MAX_SEQUENCE && PhaseOk(s.queue, s.phase)
  }

  lemma ArriveKeeps(s: State, w: Writer)
    requires Inv(s) && WriterOk(w)
    ensures Inv(Do(s, Arrive(w)))
  {
    hide GroupsOk, MembersOf, WriterOk, Stopped;
    var s' := Do(s, Arrive(w));
    assert s'.arrived == MembersOf(s.groups) + s'.queue;
    hide OpsOf, Arrivals;
    assert s.phase.Logging? ==> s'.queue[..s.phase.size] == s.queue[..s.phase.size];
  }

  lemma BeginKeeps(s: State, k: nat)
    requires Inv(s) && Enabled(s, Begin(k))
    ensures Inv(Do(s, Begin(k)))
  {
    hide GroupsOk, MembersOf;
    StoppedBegin(s.groups, s.phase, Logging(k, OpsOf(s.queue[..k])));
    hide Stopped;
    GroupFits(s.queue, k);
  }

  lemma StoppedBegin(gs: seq<Group>, phase: Phase, phase': Phase)
    requires Stopped(gs, phase, false)
    ensures Stopped(gs, phase', false)
  {
  }

  lemma NotStopped(gs: seq<Group>, phase: Phase, failed: bool)
    requires Stopped(gs, phase, failed) && phase.Logging?
    ensures !failed
  {
  }

  /** One more group at the end. */
  lemma GroupsSnoc(gs: seq<Group>, g: Group, last: nat, log: Log, mem: seq<Entry>)
    requires GroupsOk(gs, last, log, mem) && GroupOk(g) && g.first == last + 1
    ensures MembersOf(gs + [g]) == MembersOf(gs) + g.members
    ensures GroupsOk(gs + [g], last + |g.ops|, LogWith(log, g), MemWith(mem, g))
  {
    hide RepOf, Entries, GroupOk;
    var gs' := gs + [g];
    assert gs'[..|gs|] == gs && gs'[|gs|] == g;
    forall i | 0 <= i < |gs'|
      ensures gs'[i].first == CountOf(gs'[..i]) + 1
    {
      if i < |gs| {
        assert gs'[..i] == gs[..i];
      }
    }
  }

  lemma FinishKeeps(s: State, outcome: Outcome)
    requires Inv(s) && Enabled(s, Finish(outcome))
    ensures Inv(Do(s, Finish(outcome)))
  {
    hide GroupsOk, MembersOf, OpsOf, LogWith, MemWith, GroupOk, Arrivals, WriterOk, PhaseOk, Stopped;
    assert PhaseOk(s.queue, s.phase);
    var k, ops := s.phase.size, s.phase.ops;
    var g := Group(s.queue[..k], s.lastSequence + 1, ops, outcome);
    FinishedGroup(s.queue, s.phase, g);
    GroupsSnoc(s.groups, g, s.lastSequence, s.log, s.mem);
    NotStopped(s.groups, s.phase, s.failed);
    StoppedSnoc(s.groups, s.phase, s.failed, g);
    SplitQueue(MembersOf(s.groups), s.queue, k);
    IdleOk(s.queue[k..]);
  }

  lemma FinishedGroup(queue: seq<Writer>, phase: Phase, g: Group)
    requires PhaseOk(queue, phase) && phase.Logging? && g.members == queue[..phase.size] && g.ops == phase.ops
    requires 0 < g.first < TWO64
    requires g.outcome.Written? || g.outcome.NotLogged? || g.outcome.NotSynced?
    ensures GroupOk(g)
  {
    hide OpsOf, OpOk;
    forall w | w in g.members && w.sync
      ensures g.members[0].sync
    {
      var i :| 0 <= i < |g.members| && g.members[i] == w;
      assert queue[i] == w;
    }
  }

  lemma SplitQueue(before: seq<Writer>, queue: seq<Writer>, k: nat)
    requires k <= |queue|
    ensures forall arrived :: Arrivals(arrived, before, queue) ==> Arrivals(arrived, before + queue[..k], queue[k..])
    ensures forall w :: w in queue[k..] ==> w in queue
  {
    assert before + queue == (before + queue[..k]) + queue[k..];
  }

  lemma IdleOk(queue: seq<Writer>)
    ensures PhaseOk(queue, Idle)
  {
  }

  lemma LoneGroup(w: Writer, first: nat, outcome: Outcome)
    requires 0 < first < TWO64 && (outcome.Refused? || outcome.NothingToWrite?)
    ensures GroupOk(Group([w], first, [], outcome))
  {
    hide OpsOf, OpOk;
  }

  lemma LeaveKeeps(s: State, outcome: Outcome)
    requires Inv(s) && s.phase.Idle? && s.queue != [] && (outcome.Refused? || outcome.NothingToWrite?)
    requires s.failed ==> outcome.Refused?
    ensures Inv(Leave(s, outcome))
  {
    hide GroupsOk, MembersOf, GroupOk, Arrivals, WriterOk, PhaseOk, RepOf, Entries, Stopped;
    var g := Group([s.queue[0]], s.lastSequence + 1, [], outcome);
    assert s.queue[..1] == [s.queue[0]];
    LoneGroup(s.queue[0], s.lastSequence + 1, outcome);
    GroupsSnoc(s.groups, g, s.lastSequence, s.log, s.mem);
    StoppedSnoc(s.groups, s.phase, s.failed, g);
    SplitQueue(MembersOf(s.groups), s.queue, 1);
    IdleOk(s.queue[1..]);
  }

  lemma StepKeeps(s: State, step: Step)
    requires Inv(s) && Enabled(s, step)
    ensures Inv(Do(s, step))
  {
    hide Inv;
    match step
    case Arrive(w) => ArriveKeeps(s, w);
    case Begin(k) => BeginKeeps(s, k);
    case Finish(outcome) => FinishKeeps(s, outcome);
    case Refuse => LeaveKeeps(s, Refused);
    case Compact => LeaveKeeps(s, NothingToWrite);
  }

  ghost predicate Init(s: State) {
    s == State([], Idle, 0, false, Intact([]), [], [], [])
  }

  ghost predicate RunsTo(s: State, steps: seq<Step>, s': State)
    decreases |steps|
  {
    if steps == [] then s' == s
    else Enabled(s, steps[0]) && RunsTo(Do(s, steps[0]), steps[1..], s')
  }

  lemma {:induction false} RunKeeps(s: State, steps: seq<Step>, s': State)
    requires Inv(s) && RunsTo(s, steps, s')
    ensures Inv(s')
    decreases |steps|
  {
    if steps != [] {
      hide Inv, Enabled, Do;
      StepKeeps(s, steps[0]);
      RunKeeps(Do(s, steps[0]), steps[1..], s');
    }
  }

  // What the log replays to

  function Replay(log: seq<Bytes>): seq<Entry> {
    if log == [] then []
    else
      var record := log[|log| - 1];
      Replay(log[..|log| - 1]) + if |record| < HEADER then []
      else Entries(DecodeFixed64(record[..8]), Parse(record).ops)
  }

  /** The entries of the groups that reached the log. */
  function LoggedOf(gs: seq<Group>): seq<Entry> {
    if gs == [] then []
    else
      var g := gs[|gs| - 1];
      LoggedOf(gs[..|gs| - 1]) + if InLog(g) then Entries(g.first, g.ops) else []
  }

  lemma {:induction false} ReplayIsLogged(gs: seq<Group>)
    requires forall g :: g in gs ==> GroupOk(g)
    ensures Replay(LogOf(gs).records) <= LoggedOf(gs)
    ensures LogOf(gs).Intact? ==> Replay(LogOf(gs).records) == LoggedOf(gs)
    ensures LogOf(gs).Intact? <==> forall g :: g in gs ==> !Tears(g)
    decreases |gs|
  {
    if gs != [] {
      var front, g := gs[..|gs| - 1], gs[|gs| - 1];
      assert GroupOk(g) && gs == front + [g];
      ReplayIsLogged(front);
      BatchRoundTrip(g.first, g.ops);
      hide RepOf, Entries, Parse, DecodeFixed64, GroupOk;
      var records := LogOf(front).records;
      if InLog(g) {
        assert (records + [RepOf(g.first, g.ops)])[..|records|] == records;
      } else {
        assert LoggedOf(front) + [] == LoggedOf(front);
      }
    }
  }

  /** Sequence numbers ascend, so none is used twice. */
  ghost predicate Ascending(es: seq<Entry>, last: nat) {
    (forall i, j :: 0 <= i < j < |es| ==> es[i].key.seqno < es[j].key.seqno) && forall e :: e in es ==>
                                                                                              e.key.seqno <= last
  }

  lemma {:induction false} LoggedAscends(gs: seq<Group>)
    requires Numbered(gs)
    ensures Ascending(LoggedOf(gs), CountOf(gs))
    decreases |gs|
  {
    if gs != [] {
      var front, g := gs[..|gs| - 1], gs[|gs| - 1];
      assert forall i :: 0 <= i < |front| ==> front[..i] == gs[..i];
      assert gs[..|gs| - 1] == front && g.first == CountOf(front) + 1;
      LoggedAscends(front);
      hide Numbered, Ascending, Entries, InLog;
      AscendingMore(LoggedOf(front), CountOf(front), g.ops);
      assert LoggedOf(front) + [] == LoggedOf(front);
    }
  }

  lemma AscendingMore(es: seq<Entry>, last: nat, ops: seq<Op>)
    requires Ascending(es, last)
    ensures Ascending(es + Entries(last + 1, ops), last + |ops|) && Ascending(es, last + |ops|)
  {
  }

  /** The group's operations are in the log file though its writers were told that they failed. */
  predicate Strays(g: Group) {
    InLog(g) && !g.outcome.Written? && g.ops != []
  }

  lemma LastStrays(gs: seq<Group>, g: Group)
    ensures (forall x :: x in gs + [g] ==> !Strays(x)) <==> (forall x :: x in gs ==> !Strays(x)) && !Strays(g)
  {
    hide Strays;
    assert g in gs + [g] && forall x :: x in gs ==> x in gs + [g];
  }

  lemma {:induction false} LoggedOrWritten(gs: seq<Group>)
    requires forall g :: g in gs ==> GroupOk(g)
    ensures |EntriesOf(gs)| <= |LoggedOf(gs)|
    ensures EntriesOf(gs) == LoggedOf(gs) <==> forall g :: g in gs ==> !Strays(g)
    ensures EntriesOf(gs) == LoggedOf(gs) <==> |EntriesOf(gs)| == |LoggedOf(gs)|
    decreases |gs|
  {
    if gs != [] {
      var front, g := gs[..|gs| - 1], gs[|gs| - 1];
      assert GroupOk(g) && gs == front + [g];
      hide Entries, GroupOk;
      assert (forall x :: x in gs ==> !Strays(x)) <==> (forall x :: x in front ==> !Strays(x)) && !Strays(g) by {
        LastStrays(front, g);
      }
      LoggedOrWritten(front);
      BothGrow(EntriesOf(front), LoggedOf(front), Entries(g.first, g.ops));
    }
  }

  lemma BothGrow<T>(a: seq<T>, b: seq<T>, more: seq<T>)
    ensures a + more == b + more <==> a == b
    ensures a + [] == a && b + [] == b
  {
    if a != b && |a| == |b| {
      var i :| 0 <= i < |a| && a[i] != b[i];
      assert (a + more)[i] != (b + more)[i];
    }
  }

  // What the memtable reads

  /** The operations of the groups that succeeded, in order. */
  function WrittenOps(gs: seq<Group>): seq<Op> {
    if gs == [] then []
    else WrittenOps(gs[..|gs| - 1]) + if gs[|gs| - 1].outcome.Written? then gs[|gs| - 1].ops else []
  }

  lemma BecomeMore(ops: seq<Op>, es: seq<Entry>, last: nat, more: seq<Op>)
    requires Become(ops, es) && Ascending(es, last)
    ensures Become(ops + more, es + Entries(last + 1, more)) && Ascending(es + Entries(last + 1, more), last + |more|)
  {
    EntriesBecome(last + 1, more);
    AscendingMore(es, last, more);
    hide EntryFor, Entries;
  }

  lemma {:induction false} MemBecomes(gs: seq<Group>)
    requires Numbered(gs)
    ensures Become(WrittenOps(gs), EntriesOf(gs)) && Ascending(EntriesOf(gs), CountOf(gs))
    decreases |gs|
  {
    if gs != [] {
      var front, g := gs[..|gs| - 1], gs[|gs| - 1];
      assert forall i :: 0 <= i < |front| ==> front[..i] == gs[..i];
      assert g.first == CountOf(front) + 1;
      hide Numbered, Become, Entries;
      MemBecomes(front);
      BecomeMore(WrittenOps(front), EntriesOf(front), CountOf(front), g.ops);
      assert WrittenOps(front) + [] == WrittenOps(front) && EntriesOf(front) + [] == EntriesOf(front);
    }
  }

  /** The memtable reads as if the successful groups had been applied to a map one operation after another. */
  lemma MemReads(s: State, steps: seq<Step>, s': State, user: Bytes)
    requires Init(s) && RunsTo(s, steps, s')
    ensures R.Read(EntrySet(s'.mem), user, s'.lastSequence) == ValueAfter(WrittenOps(s'.groups), user)
  {
    assert Inv(s);
    RunKeeps(s, steps, s');
    hide Init, RunsTo, R.Read, ValueAfter, WrittenOps, EntriesOf;
    InvParts(s');
    MemBecomes(s'.groups);
    hide Inv;
    AllSeen(WrittenOps(s'.groups), s'.mem, user, s'.lastSequence);
  }

  lemma InvParts(s: State)
    requires Inv(s)
    ensures Numbered(s.groups) && s.lastSequence == CountOf(s.groups) && s.mem == EntriesOf(s.groups)
  {
    hide Stopped, Arrivals, MembersOf, GroupOk, PhaseOk, LogOf, Numbered;
  }

  lemma AllSeen(ops: seq<Op>, es: seq<Entry>, user: Bytes, last: nat)
    requires Become(ops, es) && Ascending(es, last)
    ensures R.Read(EntrySet(es), user, last) == ValueAfter(ops, user)
  {
    assert forall i :: 0 <= i < |es| ==> es[i] in es;
    hide R.Read, ValueAfter;
    ReadsInOrder(ops, es, |ops|, user, last);
    assert ops[..|ops|] == ops;
  }

  /**
   Group commit over every run: writers leave in the order they came, each once; the operations
   logged for a group are its members' batches in order, numbered from the last number on; no
   number is used twice; and a member that asked for a sync is in a group whose leader syncs. As
   long as no append left part of a record behind, replaying the log gives the operations of the
   groups whose record is whole, and it gives the memtable if and only if none of these groups
   was told that it failed. After a sync that failed nothing more is written.
   */
  lemma GroupCommit(s: State, steps: seq<Step>, s': State)
    requires Init(s) && RunsTo(s, steps, s')
    ensures s'.arrived == MembersOf(s'.groups) + s'.queue
    ensures forall g :: g in s'.groups && g.outcome.Written? ==>
                          g.ops == OpsOf(g.members) && forall w :: w in g.members && w.sync ==> g.members[0].sync
    ensures forall i :: 0 <= i < |s'.groups| ==> s'.groups[i].first == CountOf(s'.groups[..i]) + 1
    ensures s'.lastSequence == CountOf(s'.groups)
    ensures forall i, j :: 0 <= i < j < |s'.groups| && s'.groups[i].outcome.NotSynced? ==> s'.groups[j].outcome.Refused?
    ensures Replay(s'.log.records) <= LoggedOf(s'.groups) && Ascending(LoggedOf(s'.groups), s'.lastSequence)
    ensures s'.log.Intact? <==> forall g :: g in s'.groups ==> !Tears(g)
    ensures s'.log.Intact? ==> Replay(s'.log.records) == LoggedOf(s'.groups)
    ensures s'.log.Intact? ==> (Replay(s'.log.records) == s'.mem <==> forall g :: g in s'.groups ==> !Strays(g))
  {
    assert Inv(s);
    RunKeeps(s, steps, s');
    assert Arrivals(s'.arrived, MembersOf(s'.groups), s'.queue);
    ReplayIsLogged(s'.groups);
    LoggedAscends(s'.groups);
    LoggedOrWritten(s'.groups);
  }
}
