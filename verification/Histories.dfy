/**
 What writes mean: the store is a map from keys to values, and each operation sets or removes one
 key. Sequence number `n` names the map after the first `n` operations, and that is what a reader
 at snapshot `n` sees, whatever batches, flushes, merges and crashes lie in between.
 */
module Histories {
  import opened Keys
  import opened Reads
  import opened Drops
  import opened WriteBatches
  import E = Database

  /** The value of a key after these operations: the last one on the key decides. */
  function ValueAfter(ops: seq<Op>, user: Bytes): Option<Bytes> {
    if ops == [] then None
    else
      var last := ops[|ops| - 1];
      if last.key != user then ValueAfter(ops[..|ops| - 1], user)
      else if last.Put? then Some(last.value)
      else None
  }

  /** The operations up to a sequence number. */
  function Upto(ops: seq<Op>, n: nat): seq<Op> {
    if n < |ops| then ops[..n] else ops
  }

  /** A batch behind other operations: the keys it names read as it says, the others as before. */
  lemma {:induction false} AfterBatch(before: seq<Op>, ops: seq<Op>, user: Bytes)
    ensures ValueAfter(before + ops, user)
         == if Names(ops, user) then ValueAfter(ops, user) else ValueAfter(before, user)
    decreases |ops|
  {
    if ops == [] {
      assert before + ops == before;
    } else {
      var all, front := before + ops, ops[..|ops| - 1];
      assert all[..|all| - 1] == before + front;
      AfterBatch(before, front, user);
      assert Names(ops, user) <==> Names(front, user) || ops[|ops| - 1].key == user;
    }
  }

  predicate Names(ops: seq<Op>, user: Bytes) {
    exists i :: 0 <= i < |ops| && ops[i].key == user
  }

  // Entries that operations become

  /** The entries of the operations, in order, with ascending sequence numbers. */
  ghost predicate Become(ops: seq<Op>, es: seq<Entry>) {
    && |es| == |ops| && (forall i :: 0 <= i < |es| ==> es[i] == EntryFor(es[i].key.seqno, ops[i]))
    && forall i, j :: 0 <= i < j < |es| ==> es[i].key.seqno < es[j].key.seqno
  }

  /** The last operation on a key among the first `k`, if there is one. */
  lemma {:induction false} LastOn(ops: seq<Op>, k: nat, user: Bytes) returns (i: Option<nat>)
    requires k <= |ops|
    ensures i.None? ==> ValueAfter(ops[..k], user) == None && forall j :: 0 <= j < k ==> ops[j].key != user
    ensures i.Some? ==> i.value < k && ops[i.value].key == user && forall j :: i.value < j < k ==> ops[j].key != user
    ensures i.Some? ==>
              ValueAfter(ops[..k], user) == match ops[i.value] case Put(_, value) => Some(value) case Delete(_) => None
    decreases k
  {
    if k == 0 {
      i := None;
    } else {
      assert ops[..k][..k - 1] == ops[..k - 1];
      if ops[k - 1].key == user {
        i := Some(k - 1);
      } else {
        i := LastOn(ops, k - 1, user);
      }
    }
  }

  /** A snapshot that sees the entries of the first `k` operations reads the map after these. */
  lemma ReadsInOrder(ops: seq<Op>, es: seq<Entry>, k: nat, user: Bytes, snapshot: nat)
    requires Become(ops, es) && k <= |es| && (forall i :: 0 <= i < |es| ==> (es[i].key.seqno <= snapshot <==> i < k))
    ensures Read(EntrySet(es), user, snapshot) == ValueAfter(ops[..k], user)
  {
    var i := LastOn(ops, k, user);
    forall e | e in EntrySet(es) && Visible(e, user, snapshot)
      ensures i.Some? && e.key.seqno <= es[i.value].key.seqno
    {
      var j :| 0 <= j < |es| && es[j] == e;
      assert ops[j].key == user && j < k;
    }
    if i.Some? {
      var e := es[i.value];
      assert e in EntrySet(es) && IsNewest(EntrySet(es), user, snapshot, e);
      ReadIs(EntrySet(es), user, snapshot, e);
    }
  }

  lemma EntriesBecome(first: nat, ops: seq<Op>)
    ensures Become(ops, Entries(first, ops)) && EntrySet(Entries(first, ops)) == E.BatchEntries(ops, first)
    ensures forall i :: 0 <= i < |ops| ==> Entries(first, ops)[i].key.seqno == first + i
  {
    var es := Entries(first, ops);
    assert forall i :: 0 <= i < |es| ==> es[i].key.seqno == first + i;
    forall e
      ensures e in EntrySet(es) <==> e in E.BatchEntries(ops, first)
    {
      EntryOfBatch(first, ops, e);
    }
    hide E.BatchEntries;
  }

  lemma EntryOfBatch(first: nat, ops: seq<Op>, e: Entry)
    ensures e in Entries(first, ops) <==> e in E.BatchEntries(ops, first)
  {
    var es := Entries(first, ops);
    hide EntryFor;
    if e in es {
      var i :| 0 <= i < |es| && es[i] == e;
      assert EntryFor(first + i, ops[i]) == e;
    }
    if e in E.BatchEntries(ops, first) {
      var i :| 0 <= i < |ops| && EntryFor(first + i, ops[i]) == e;
      assert es[i] == e;
    }
  }

  /** What a batch does to reads of anything older: it decides the keys it names and leaves the others. */
  lemma BatchReads(earlier: set<Entry>, last: nat, ops: seq<Op>, user: Bytes)
    requires Unique(earlier) && E.UpTo(earlier, last)
    ensures Read(E.BatchEntries(ops, last + 1) + earlier, user, last + |ops|)
         == if Names(ops, user) then ValueAfter(ops, user) else Read(earlier, user, last)
  {
    hide *;
    var latest, now := E.BatchEntries(ops, last + 1), last + |ops|;
    BothSee(earlier, last, now, user);
    E.BatchIsNewest(ops, last, earlier);
    EarlierUnique(latest, earlier);
    ReadLayers(latest, earlier, user, now);
    FoundNamed(last, ops, user);
    BatchAlone(last, ops, user);
    SameNewest(earlier, user, now, last);
  }

  lemma BatchAlone(last: nat, ops: seq<Op>, user: Bytes)
    ensures Read(E.BatchEntries(ops, last + 1), user, last + |ops|) == ValueAfter(ops, user)
  {
    hide Read, ValueAfter, E.BatchEntries, Become, Entries, EntrySet;
    EntriesBecome(last + 1, ops);
    ReadsInOrder(ops, Entries(last + 1, ops), |ops|, user, last + |ops|);
    assert ops[..|ops|] == ops;
  }

  lemma BothSee(s: set<Entry>, last: nat, now: nat, user: Bytes)
    requires E.UpTo(s, last) && last <= now
    ensures forall e :: e in s ==> (Visible(e, user, now) <==> Visible(e, user, last))
  {
  }

  lemma EarlierUnique(latest: set<Entry>, earlier: set<Entry>)
    requires Unique(latest + earlier)
    ensures Unique(earlier)
  {
  }

  lemma FoundNamed(last: nat, ops: seq<Op>, user: Bytes)
    ensures Found(E.BatchEntries(ops, last + 1), user, last + |ops|) <==> Names(ops, user)
  {
    var latest, now := E.BatchEntries(ops, last + 1), last + |ops|;
    if i :| 0 <= i < |ops| && ops[i].key == user {
      assert EntryFor(last + 1 + i, ops[i]) in latest && Visible(EntryFor(last + 1 + i, ops[i]), user, now);
    }
  }

  /** Snapshots that see the same entries read the same. */
  lemma SameNewest(s: set<Entry>, user: Bytes, a: nat, b: nat)
    requires Unique(s) && forall e :: e in s ==> (Visible(e, user, a) <==> Visible(e, user, b))
    ensures Read(s, user, a) == Read(s, user, b)
  {
    assert forall e :: IsNewest(s, user, a, e) <==> IsNewest(s, user, b, e);
    if e :| IsNewest(s, user, a, e) {
      ReadIs(s, user, a, e);
      ReadIs(s, user, b, e);
    }
  }

  /** Every snapshot of a history of operations reads the map after that many of them. */
  lemma HistoryReads(ops: seq<Op>, user: Bytes, snapshot: nat)
    ensures Read(E.BatchEntries(ops, 1), user, snapshot) == ValueAfter(Upto(ops, snapshot), user)
  {
    hide Read, ValueAfter, E.BatchEntries, Become, Entries, EntrySet;
    EntriesBecome(1, ops);
    ReadsInOrder(ops, Entries(1, ops), |Upto(ops, snapshot)|, user, snapshot);
    assert ops[..|ops|] == ops;
  }

  lemma HistoryGrows(ops: seq<Op>, more: seq<Op>)
    ensures E.BatchEntries(ops + more, 1) == E.BatchEntries(ops, 1) + E.BatchEntries(more, |ops| + 1)
  {
    var all := ops + more;
    forall e
      ensures e in E.BatchEntries(all, 1) <==> e in E.BatchEntries(ops, 1) || e in E.BatchEntries(more, |ops| + 1)
    {
      if i :| 0 <= i < |all| && EntryFor(1 + i, all[i]) == e {
        if i < |ops| {
          assert EntryFor(1 + i, ops[i]) == e;
        } else {
          assert EntryFor(|ops| + 1 + (i - |ops|), more[i - |ops|]) == e;
        }
      }
      if i :| 0 <= i < |ops| && EntryFor(1 + i, ops[i]) == e {
        assert EntryFor(1 + i, all[i]) == e;
      }
      if i :| 0 <= i < |more| && EntryFor(|ops| + 1 + i, more[i]) == e {
        assert EntryFor(1 + (|ops| + i), all[|ops| + i]) == e;
      }
    }
  }

  // Runs

  /** The operations of the writes among these actions, in order. */
  function OpsIn(actions: seq<E.Action>): seq<Op> {
    if actions == [] then []
    else OpsIn(actions[..|actions| - 1]) + if actions[|actions| - 1].Write? then actions[|actions| - 1].ops else []
  }

  /** The engine has written exactly these operations. */
  ghost predicate HasWritten(s: E.State, ops: seq<Op>) {
    s.lastSequence == |ops| && s.written == E.BatchEntries(ops, 1)
  }

  lemma NextWrote(s: E.State, ops: seq<Op>, a: E.Action, s': E.State)
    requires HasWritten(s, ops) && E.Next(s, a, s')
    ensures HasWritten(s', ops + if a.Write? then a.ops else [])
  {
    if a.Write? {
      HistoryGrows(ops, a.ops);
    } else {
      assert ops + [] == ops;
      OtherWrote(s, a, s');
    }
  }

  lemma OtherWrote(s: E.State, a: E.Action, s': E.State)
    requires E.Next(s, a, s') && !a.Write?
    ensures s'.lastSequence == s.lastSequence && s'.written == s.written
  {
    hide E.Outputs;
  }

  lemma {:induction false} RunWrote(states: seq<E.State>, actions: seq<E.Action>, n: nat)
    requires E.IsRun(states, actions) && n < |states|
    ensures HasWritten(states[n], OpsIn(actions[..n]))
  {
    hide E.Next;
    if n == 0 {
      assert E.Init(states[0]);
    } else {
      RunWrote(states, actions, n - 1);
      assert E.Next(states[n - 1], actions[n - 1], states[n]);
      assert actions[..n][..n - 1] == actions[..n - 1];
      hide E.Init, HasWritten;
      NextWrote(states[n - 1], OpsIn(actions[..n - 1]), actions[n - 1], states[n]);
    }
  }

  /**
   Over every run whose merges are safe: a readable snapshot `n` reads from what the engine stores the
   map after the first `n` operations written.
   */
  lemma RunReadsOperations(states: seq<E.State>, actions: seq<E.Action>, n: nat, user: Bytes, snapshot: nat)
    requires E.IsRun(states, actions) && n < |states| && E.Readable(states[n], snapshot)
    requires forall i :: 0 <= i < n ==> E.Fits(states[i], actions[i]) && E.Safe(states[i], actions[i])
    ensures Read(E.Stored(states[n]), user, snapshot) == ValueAfter(Upto(OpsIn(actions[..n]), snapshot), user)
    ensures states[n].lastSequence == |OpsIn(actions[..n])|
  {
    assert n <= |actions|;
    hide E.IsRun, E.Fits, E.Safe, E.Readable, E.Stored, Read, E.BatchEntries, ValueAfter, OpsIn, Upto;
    E.RunReadsHistory(states, actions, n);
    RunWrote(states, actions, n);
    HistoryReads(OpsIn(actions[..n]), user, snapshot);
  }
}
