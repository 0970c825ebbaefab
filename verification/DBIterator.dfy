/**
 The user-facing iterator: it walks the merged internal entries in both directions and shows one
 entry per user key, the newest visible one, unless that is a deletion marker.
 */
module DBIterator {
  import opened Keys
  import opened Reads
  import opened Drops
  import opened Versions

  predicate Seen(es: seq<Entry>, sequence: nat, i: int)
    requires 0 <= i < |es|
  {
    es[i].key.seqno <= sequence
  }

  /** Entry `i` is what the iterator shows for its user key: the first visible one, and a value. */
  ghost predicate Yields(es: seq<Entry>, sequence: nat, i: int)
  {
    && 0 <= i < |es| && Seen(es, sequence, i) && es[i].key.kind.Value?
    && forall j :: 0 <= j < i && Seen(es, sequence, j) ==> es[j].key.user != es[i].key.user
  }

  /** The shown entries are exactly the keys that read to a value, with that value. */
  lemma YieldsAreReads(es: seq<Entry>, sequence: nat, user: Bytes)
    requires Merged(es)
    ensures Read(EntrySet(es), user, sequence).Some? <==> exists i :: Yields(es, sequence, i) && es[i].key.user == user
    ensures forall i :: Yields(es, sequence, i) && es[i].key.user == user ==>
                          Read(EntrySet(es), user, sequence) == Some(es[i].value)
  {
    assert Unique(EntrySet(es));
    forall i | Yields(es, sequence, i) && es[i].key.user == user
      ensures Read(EntrySet(es), user, sequence) == Some(es[i].value)
    {
      assert IsNewest(EntrySet(es), user, sequence, es[i]);
      ReadIs(EntrySet(es), user, sequence, es[i]);
    }
    if Read(EntrySet(es), user, sequence).Some? {
      var e :| IsNewest(EntrySet(es), user, sequence, e);
      assert IsNewest(EntrySet(es), user, sequence, e) && e in es;
      ReadIs(EntrySet(es), user, sequence, e);
      var i :| 0 <= i < |es| && es[i] == e;
      forall j | 0 <= j < i && Seen(es, sequence, j)
        ensures es[j].key.user != user
      {
        assert es[j] in EntrySet(es) && (es[j].key.user == user ==> Visible(es[j], user, sequence));
      }
      assert Yields(es, sequence, i);
    }
  }

  /** User keys ascend along the entries. */
  lemma UsersAscend(es: seq<Entry>, i: nat, j: nat)
    requires Merged(es) && i <= j < |es|
    ensures Ord(es[i].key.user) <= Ord(es[j].key.user)
  {
    assert i < j ==> Less(es[i].key, es[j].key);
  }

  /** Nothing is shown strictly between `lo` and `hi`. */
  ghost predicate NoYield(es: seq<Entry>, sequence: nat, lo: int, hi: int)
  {
    forall j :: lo < j < hi ==> !Yields(es, sequence, j)
  }

  /** An entry to be shown next: nothing in between, and it lies after `skip` when skipping. */
  ghost predicate Passed(es: seq<Entry>, sequence: nat, from: int, to: int, skipping: bool, skip: Bytes)
  {
    forall j :: from <= j < to && Yields(es, sequence, j) ==> skipping && Ord(es[j].key.user) <= Ord(skip)
  }

  /** Every visible entry before `i` is of a user key that is being skipped or does not occur from `from` on. */
  ghost predicate Behind(es: seq<Entry>, sequence: nat, from: int, i: int, skipping: bool, skip: Bytes)
    requires 0 <= from && i <= |es|
  {
    forall j :: 0 <= j < i && Seen(es, sequence, j) ==>
                  (skipping && Ord(es[j].key.user) <= Ord(skip)) ||
                  (j < from && forall k :: from <= k < |es| ==> es[k].key.user != es[j].key.user)
  }

  ghost predicate Front(es: seq<Entry>, sequence: nat, i: int, skipping: bool, skip: Bytes)
    requires 0 <= i
  {
    skipping ==> forall k :: i <= k < |es| && Seen(es, sequence, k) ==> Ord(skip) <= Ord(es[k].key.user)
  }

  /** The key being skipped is the one given, or that of a visible entry already passed. */
  ghost predicate SkipSource(es: seq<Entry>, sequence: nat, from: int, i: int, skipping: bool, skip: Bytes,
                             skippingArg: bool, skipArg: Bytes)
    requires 0 <= from && i <= |es|
  {
    skipping ==> (skippingArg && skip == skipArg) || exists d :: from <= d < i && Seen(es, sequence, d) &&
                                                                 es[d].key.user == skip
  }

  datatype Direction = Forward | Reverse

  class DBIter {
    const entries: seq<Entry>
    const sequence: nat
    var pos: int          // position of the internal iterator, -1 when it is not valid
    var valid: bool
    var direction: Direction
    var savedKey: Bytes
    var savedValue: Bytes
    ghost var at: int     // index of the shown entry

    constructor (entries: seq<Entry>, sequence: nat)
      requires Merged(entries)
      ensures this.entries == entries && this.sequence == sequence
      ensures Valid() && !valid
    {
      this.entries, this.sequence := entries, sequence;
      pos, valid, direction, savedKey, savedValue, at := -1, false, Forward, [], [], -1;
    }

    /** Forward: on the shown entry. Reverse: just before the visible entries of the shown key. */
    ghost predicate Valid()
      reads this
    {
      && Merged(entries) && -1 <= pos < |entries|
      && (valid ==> Yields(entries, sequence, at))
      && (valid && direction.Forward? ==> pos == at)
      && (valid && direction.Reverse? ==>
            && pos < at && savedKey == entries[at].key.user && savedValue == entries[at].value
            && (forall j :: pos < j < at ==> !Seen(entries, sequence, j))
            && (pos >= 0 ==> Ord(entries[pos].key.user) < Ord(savedKey)))
    }

    method Key() returns (k: Bytes)
      requires Valid() && valid
      ensures k == entries[at].key.user
    {
      k := if direction.Forward? then entries[pos].key.user else savedKey;
    }

    method CurrentValue() returns (v: Bytes)
      requires Valid() && valid
      ensures v == entries[at].value
      ensures Read(EntrySet(entries), entries[at].key.user, sequence) == Some(v)
    {
      v := if direction.Forward? then entries[pos].value else savedValue;
      YieldsAreReads(entries, sequence, entries[at].key.user);
    }

    /** Moves forward from the current entry to the first one to be shown. */
    method FindNextUserEntry(skippingArg: bool, skipArg: Bytes)
      requires Merged(entries) && 0 <= pos < |entries| && direction.Forward?
      requires Behind(entries, sequence, pos, pos, skippingArg, skipArg)
      requires Front(entries, sequence, pos, skippingArg, skipArg)
      modifies this
      ensures Valid() && (valid ==> direction.Forward?)
      ensures valid ==> at >= old(pos) && Passed(entries, sequence, old(pos), at, skippingArg, skipArg)
                        && (skippingArg ==> Ord(entries[at].key.user) > Ord(skipArg))
      ensures !valid ==> Passed(entries, sequence, old(pos), |entries|, skippingArg, skipArg)
    {
      hide Merged, Yields, Behind, Front;
      ghost var from := pos;
      var i, skipping, skip := pos, skippingArg, skipArg;
      while i < |entries|
        invariant from <= i <= |entries| && direction.Forward?
        invariant Searching(entries, sequence, from, i, skipping, skip, skippingArg, skipArg)
      {
        var e := entries[i];
        if e.key.seqno <= sequence {
          if e.key.kind.Deletion? {
            SkipDeletion(entries, sequence, from, i, skipping, skip, skippingArg, skipArg);
            skip := e.key.user;
            skipping := true;
          } else if skipping && Ord(e.key.user) <= Ord(skip) {
            PassHidden(entries, sequence, from, i, skip, skippingArg, skipArg);
          } else {
            ShownYields(entries, sequence, from, i, skipping, skip, skippingArg, skipArg);
            pos := i;
            at := i;
            valid := true;
            savedKey := [];
            return;
          }
        } else {
          PassInvisible(entries, sequence, from, i, skipping, skip, skippingArg, skipArg);
        }
        i := i + 1;
      }
      pos := -1;
      savedKey := [];
      valid := false;
    }

    /** Moves to the next shown entry. */
    method Next()
      requires Valid() && valid
      modifies this
      ensures Valid()
      ensures valid ==> at > old(at) && NoYield(entries, sequence, old(at), at)
      ensures !valid ==> NoYield(entries, sequence, old(at), |entries|)
    {
      ghost var was := at;
      if direction.Reverse? {
        // The internal iterator stays valid: the entry to leave lies at or after the new position.
        direction := Forward;
        pos := pos + 1;
        NextStart(entries, sequence, pos, was);
      } else {
        NextStart(entries, sequence, pos, was);
        savedKey := entries[pos].key.user;
      }
      ghost var from := pos;
      FindNextUserEntry(true, savedKey);
      PassedIsNoYield(entries, sequence, from, was, if valid then at else |entries|);
    }

    method Seek(target: Bytes)
      requires Valid()
      modifies this
      ensures Valid()
      ensures valid ==> Ord(entries[at].key.user) >= Ord(target)
      ensures forall j :: Yields(entries, sequence, j) && Ord(entries[j].key.user) >= Ord(target) ==> valid && at <= j
    {
      direction := Forward;
      savedValue := [];
      savedKey := [];
      var i := FirstAtLeast(entries, LookupKey(target, sequence));
      SeekStart(entries, sequence, target, i);
      if i < |entries| {
        pos := i;
        FindNextUserEntry(false, savedKey);
      } else {
        pos := -1;
        valid := false;
      }
    }

    method SeekToFirst()
      requires Valid()
      modifies this
      ensures Valid()
      ensures valid ==> NoYield(entries, sequence, -1, at)
      ensures !valid ==> NoYield(entries, sequence, -1, |entries|)
    {
      direction := Forward;
      savedValue := [];
      if |entries| > 0 {
        pos := 0;
        FindNextUserEntry(false, savedKey);
      } else {
        pos := -1;
        valid := false;
      }
    }

    /** Moves backward from the current entry to the nearest one to be shown. */
    method FindPrevUserEntry()
      requires Merged(entries) && -1 <= pos < |entries| && direction.Reverse?
      modifies this
      ensures Valid()
      ensures valid ==> direction.Reverse? && at <= old(pos) && NoYield(entries, sequence, at, old(pos) + 1)
      ensures !valid ==> NoYield(entries, sequence, -1, old(pos) + 1)
    {
      hide Merged, Yields, Candidate;
      ghost var start := pos;
      var kind := Deletion;
      ghost var c := -1;
      while pos >= 0
        invariant -1 <= pos <= start && direction.Reverse?
        invariant SearchingBack(entries, sequence, start, pos, kind, c, savedKey, savedValue)
      {
        var e := entries[pos];
        if e.key.seqno <= sequence {
          if kind.Value? && Ord(e.key.user) < Ord(savedKey) {
            break;
          }
          TakeBack(entries, sequence, start, pos, kind, c, savedKey, savedValue);
          kind := e.key.kind;
          if kind.Deletion? {
            savedKey := [];
            savedValue := [];
          } else {
            savedKey := e.key.user;
            savedValue := e.value;
          }
          c := pos;
        } else {
          PassBack(entries, sequence, start, pos, kind, c, savedKey, savedValue);
        }
        pos := pos - 1;
      }
      if kind.Deletion? {
        valid := false;
        savedKey := [];
        savedValue := [];
        direction := Forward;
      } else {
        CandidateYields(entries, sequence, pos, c, savedKey, savedValue);
        CandidateFacts(entries, sequence, pos, c, savedKey, savedValue);
        valid := true;
        at := c;
      }
    }

    /** Moves to the previous shown entry. */
    method Prev()
      requires Valid() && valid
      modifies this
      ensures Valid()
      ensures valid ==> at < old(at) && NoYield(entries, sequence, at, old(at))
      ensures !valid ==> NoYield(entries, sequence, -1, old(at))
    {
      ghost var was := at;
      if direction.Forward? {
        savedKey := entries[pos].key.user;
        while true
          invariant 0 <= pos <= was && direction.Forward? && Yields(entries, sequence, was)
          invariant savedKey == entries[was].key.user
          invariant forall j :: pos <= j <= was ==> entries[j].key.user == savedKey
          decreases pos
        {
          pos := pos - 1;
          if pos < 0 {
            valid := false;
            savedKey := [];
            savedValue := [];
            return;
          }
          UsersAscend(entries, pos, was);
          if Ord(entries[pos].key.user) < Ord(savedKey) {
            break;
          }
        }
        direction := Reverse;
      }
      assert NoYield(entries, sequence, pos, was);
      FindPrevUserEntry();
    }

    method SeekToLast()
      requires Valid()
      modifies this
      ensures Valid()
      ensures valid ==> NoYield(entries, sequence, at, |entries|)
      ensures !valid ==> NoYield(entries, sequence, -1, |entries|)
    {
      direction := Reverse;
      savedValue := [];
      pos := |entries| - 1;
      FindPrevUserEntry();
    }
  }

  /** The leftmost visible entry seen so far, a value, with nothing visible between it and the cursor. */
  ghost predicate Candidate(es: seq<Entry>, sequence: nat, pos: int, c: int, savedKey: Bytes, savedValue: Bytes)
  {
    && -1 <= pos < c < |es| && Seen(es, sequence, c) && es[c].key.kind.Value?
    && savedKey == es[c].key.user && savedValue == es[c].value
    && forall j :: pos < j < c ==> !Seen(es, sequence, j)
  }

  /** The state of the backward search from `start`. */
  ghost predicate SearchingBack(es: seq<Entry>, sequence: nat, start: int, pos: int, kind: Kind, c: int,
                                savedKey: Bytes, savedValue: Bytes)
  {
    && (kind.Value? ==> c <= start && Candidate(es, sequence, pos, c, savedKey, savedValue))
    && forall j :: pos < j <= start && Yields(es, sequence, j) ==> kind.Value? && j == c
  }

  /** A visible entry that does not end the search replaces the candidate, which it hides. */
  lemma TakeBack(es: seq<Entry>, sequence: nat, start: int, pos: int, kind: Kind, c: int, savedKey: Bytes,
                 savedValue: Bytes)
    requires Merged(es) && 0 <= pos <= start < |es| && Seen(es, sequence, pos)
    requires SearchingBack(es, sequence, start, pos, kind, c, savedKey, savedValue)
    requires kind.Value? ==> Ord(es[pos].key.user) >= Ord(savedKey)
    ensures SearchingBack(es, sequence, start, pos - 1, es[pos].key.kind, pos, es[pos].key.user, es[pos].value)
  {
    hide Merged;
    if kind.Value? {
      UsersAscend(es, pos, c);
      assert !Yields(es, sequence, c);
    }
  }

  lemma PassBack(es: seq<Entry>, sequence: nat, start: int, pos: int, kind: Kind, c: int, savedKey: Bytes,
                 savedValue: Bytes)
    requires 0 <= pos <= start < |es| && !Seen(es, sequence, pos)
    requires SearchingBack(es, sequence, start, pos, kind, c, savedKey, savedValue)
    ensures SearchingBack(es, sequence, start, pos - 1, kind, c, savedKey, savedValue)
  {
  }

  lemma CandidateFacts(es: seq<Entry>, sequence: nat, pos: int, c: int, savedKey: Bytes, savedValue: Bytes)
    requires Candidate(es, sequence, pos, c, savedKey, savedValue)
    ensures -1 <= pos < c < |es| && savedKey == es[c].key.user && savedValue == es[c].value
    ensures forall j :: pos < j < c ==> !Seen(es, sequence, j)
  {
  }

  lemma CandidateYields(es: seq<Entry>, sequence: nat, pos: int, c: int, savedKey: Bytes, savedValue: Bytes)
    requires Merged(es) && Candidate(es, sequence, pos, c, savedKey, savedValue)
    requires pos >= 0 ==> Ord(es[pos].key.user) < Ord(savedKey)
    ensures Yields(es, sequence, c)
  {
    hide Merged;
    forall j | 0 <= j < c && Seen(es, sequence, j)
      ensures es[j].key.user != savedKey
    {
      UsersAscend(es, j, pos);
    }
  }

  /** From the shown entry, or from just before its visible entries, the forward search may start. */
  lemma NextStart(es: seq<Entry>, sequence: nat, pos: nat, at: int)
    requires Merged(es) && Yields(es, sequence, at) && pos <= at
    requires forall j :: pos <= j < at ==> !Seen(es, sequence, j)
    ensures Behind(es, sequence, pos, pos, true, es[at].key.user) && Front(es, sequence, pos, true, es[at].key.user)
  {
    hide Merged;
    forall j | 0 <= j < |es|
      ensures if j <= at then Ord(es[j].key.user) <= Ord(es[at].key.user)
              else Ord(es[at].key.user) <= Ord(es[j].key.user)
    {
      if j <= at {
        UsersAscend(es, j, at);
      } else {
        UsersAscend(es, at, j);
      }
    }
  }

  lemma PassedIsNoYield(es: seq<Entry>, sequence: nat, from: nat, at: int, to: int)
    requires Merged(es) && Yields(es, sequence, at) && from <= at && to <= |es|
    requires Passed(es, sequence, from, to, true, es[at].key.user)
    ensures NoYield(es, sequence, at, to)
  {
    hide Merged;
    forall j | at < j < to
      ensures !Yields(es, sequence, j)
    {
      UsersAscend(es, at, j);
    }
  }

  /** Every visible entry before the seek position is of a smaller user key than those from it on. */
  lemma SeekStart(es: seq<Entry>, sequence: nat, target: Bytes, i: nat)
    requires Merged(es) && i == FirstAtLeast(es, LookupKey(target, sequence))
    ensures forall j :: 0 <= j < i && Seen(es, sequence, j) ==> Ord(es[j].key.user) < Ord(target)
    ensures forall k :: i <= k < |es| ==> Ord(es[k].key.user) >= Ord(target)
    ensures Behind(es, sequence, i, i, false, [])
  {
    forall k | i <= k < |es|
      ensures Ord(es[k].key.user) >= Ord(target)
    {
      UsersAscend(es, i, k);
    }
  }

  /** The state of the forward search at entry `i`. */
  ghost predicate Searching(es: seq<Entry>, sequence: nat, from: int, i: int, skipping: bool, skip: Bytes,
                            skippingArg: bool, skipArg: Bytes)
    requires 0 <= from <= i <= |es|
  {
    && Behind(es, sequence, from, i, skipping, skip) && Front(es, sequence, i, skipping, skip)
    && (skippingArg ==> skipping && Ord(skipArg) <= Ord(skip))
    && SkipSource(es, sequence, from, i, skipping, skip, skippingArg, skipArg)
    && Passed(es, sequence, from, i, skippingArg, skipArg)
  }

  /** A visible deletion marker makes its user key the one to skip. */
  lemma SkipDeletion(es: seq<Entry>, sequence: nat, from: nat, i: nat, skipping: bool, skip: Bytes, skippingArg: bool,
                     skipArg: Bytes)
    requires Merged(es) && from <= i < |es| && Seen(es, sequence, i) && es[i].key.kind.Deletion?
    requires Searching(es, sequence, from, i, skipping, skip, skippingArg, skipArg)
    ensures Searching(es, sequence, from, i + 1, true, es[i].key.user, skippingArg, skipArg)
  {
    hide Merged;
    forall k | i <= k < |es|
      ensures Ord(es[i].key.user) <= Ord(es[k].key.user)
    {
      UsersAscend(es, i, k);
    }
  }

  /** A hidden value is not shown, unless it is of the user key that was skipped from the start. */
  lemma PassHidden(es: seq<Entry>, sequence: nat, from: nat, i: nat, skip: Bytes, skippingArg: bool, skipArg: Bytes)
    requires Merged(es) && from <= i < |es| && Seen(es, sequence, i) && Ord(es[i].key.user) <= Ord(skip)
    requires Searching(es, sequence, from, i, true, skip, skippingArg, skipArg)
    ensures Searching(es, sequence, from, i + 1, true, skip, skippingArg, skipArg)
  {
    hide Merged;
    assert es[i].key.user == skip;
    assert Yields(es, sequence, i) ==> skippingArg && skip == skipArg;
  }

  lemma PassInvisible(es: seq<Entry>, sequence: nat, from: nat, i: nat, skipping: bool, skip: Bytes, skippingArg: bool,
                      skipArg: Bytes)
    requires from <= i < |es| && !Seen(es, sequence, i)
    requires Searching(es, sequence, from, i, skipping, skip, skippingArg, skipArg)
    ensures Searching(es, sequence, from, i + 1, skipping, skip, skippingArg, skipArg)
  {
  }

  /** A value that is not hidden is the first visible entry of its user key. */
  lemma ShownYields(es: seq<Entry>, sequence: nat, from: nat, i: nat, skipping: bool, skip: Bytes, skippingArg: bool,
                    skipArg: Bytes)
    requires from <= i < |es| && Seen(es, sequence, i) && es[i].key.kind.Value?
    requires Searching(es, sequence, from, i, skipping, skip, skippingArg, skipArg)
    requires skipping ==> Ord(es[i].key.user) > Ord(skip)
    ensures Yields(es, sequence, i)
  {
  }
}
