/**
 Which entries a merging compaction drops, and what that does to reads.

 `input` is the merged stream of the compaction's input files. `snapshot` is the oldest
 snapshot any reader holds. `base` tells, for a user key, that no level below the output
 level has a file whose range contains the key.
 */
module Drops {
  import opened Keys
  import opened Reads

  /** Sorted, and the sequence numbers of each user key strictly descend. */
  ghost predicate Merged(input: seq<Entry>)
  {
    Sorted(input) &&
    forall i, j :: 0 <= i < j < |input| && input[i].key.user == input[j].key.user ==>
                     input[i].key.seqno > input[j].key.seqno
  }

  lemma MergedSplit(a: seq<Entry>, b: seq<Entry>)
    requires Merged(a + b)
    ensures Merged(a) && Merged(b)
    ensures forall x, y :: x in a && y in b ==> Less(x.key, y.key)
    ensures forall x, y :: x in a && y in b ==> (x.key.user == y.key.user ==> x.key.seqno > y.key.seqno)
  {
    var c := a + b;
    assert forall i :: 0 <= i < |a| ==> c[i] == a[i];
    assert forall i :: 0 <= i < |b| ==> c[|a| + i] == b[i];
    forall x, y | x in a && y in b
      ensures Less(x.key, y.key) && (x.key.user == y.key.user ==> x.key.seqno > y.key.seqno)
    {
      var i :| 0 <= i < |a| && a[i] == x;
      var j :| 0 <= j < |b| && b[j] == y;
      assert c[i] == x && c[|a| + j] == y;
    }
  }

  function EntrySet(es: seq<Entry>): set<Entry>
  {
    set e | e in es
  }

  /** Rule (A): the previous entry of the same user key is already visible to every reader. */
  predicate Hidden(input: seq<Entry>, i: nat, snapshot: nat)
    requires i < |input|
  {
    i > 0 && input[i - 1].key.user == input[i].key.user && input[i - 1].key.seqno <= snapshot
  }

  /** A deletion marker that every reader sees and that hides nothing further down. */
  predicate Obsolete(e: Entry, snapshot: nat, base: Bytes -> bool)
  {
    e.key.kind.Deletion? && e.key.seqno <= snapshot && base(e.key.user)
  }

  predicate Dropped(input: seq<Entry>, i: nat, snapshot: nat, base: Bytes -> bool)
    requires i < |input|
  {
    Hidden(input, i, snapshot) || Obsolete(input[i], snapshot, base)
  }

  /** The first `n` entries of the stream without the dropped ones. */
  function Kept(input: seq<Entry>, n: nat, snapshot: nat, base: Bytes -> bool): seq<Entry>
    requires n <= |input|
  {
    if n == 0 then []
    else Kept(input, n - 1, snapshot, base) +
         if Dropped(input, n - 1, snapshot, base) then [] else [input[n - 1]]
  }

  lemma {:induction false} KeptMembers(input: seq<Entry>, n: nat, snapshot: nat, base: Bytes -> bool)
    requires n <= |input|
    ensures forall e :: e in Kept(input, n, snapshot, base) <==>
                        exists i :: 0 <= i < n && input[i] == e && !Dropped(input, i, snapshot, base)
  {
    if n > 0 {
      KeptMembers(input, n - 1, snapshot, base);
    }
  }

  /** The kept entries keep the order of the stream. */
  lemma {:induction false} KeptMerged(input: seq<Entry>, n: nat, snapshot: nat, base: Bytes -> bool)
    requires n <= |input| && Merged(input)
    ensures Merged(Kept(input, n, snapshot, base))
  {
    if n > 0 {
      KeptMerged(input, n - 1, snapshot, base);
      KeptMembers(input, n - 1, snapshot, base);
      var kept := Kept(input, n - 1, snapshot, base);
      forall i | 0 <= i < |kept|
        ensures Less(kept[i].key, input[n - 1].key)
        ensures kept[i].key.user == input[n - 1].key.user ==> kept[i].key.seqno > input[n - 1].key.seqno
      {
        assert kept[i] in kept;
      }
    }
  }

  /** An entry older than another visible at `snapshot` is dropped by rule (A). */
  lemma OlderIsHidden(input: seq<Entry>, i: nat, j: nat, snapshot: nat)
    requires Merged(input) && i < j < |input|
    requires input[i].key.user == input[j].key.user && input[i].key.seqno <= snapshot
    ensures Hidden(input, j, snapshot)
  {
    if j - 1 != i {
      assert Less(input[i].key, input[j - 1].key) && Less(input[j - 1].key, input[j].key);
    }
  }

  /** The condition under which a dropped deletion marker brings back an older value. */
  ghost predicate Resurrects(rest: set<Entry>, input: set<Entry>, snapshot: nat, base: Bytes -> bool, user: Bytes)
  {
    base(user) &&
    exists e, r :: e in input && e.key.kind.Deletion? && IsNewest(rest + input, user, snapshot, e)
                   && r in rest && r.key.kind.Value? && IsNewest(rest, user, snapshot, r)
  }

  /** When the newest visible entry survives or is hidden, the read is unchanged. */
  lemma DropStep(rest: set<Entry>, input: seq<Entry>, oldest: nat, base: Bytes -> bool, user: Bytes, snapshot: nat,
                 e: Entry)
    requires Merged(input) && Unique(rest + EntrySet(input)) && oldest <= snapshot
    requires IsNewest(rest + EntrySet(input), user, snapshot, e)
    requires e in rest || !Obsolete(e, oldest, base)
    ensures IsNewest(rest + EntrySet(Kept(input, |input|, oldest, base)), user, snapshot, e)
  {
    KeptMembers(input, |input|, oldest, base);
    var out := EntrySet(Kept(input, |input|, oldest, base));
    if e !in rest {
      var i :| 0 <= i < |input| && input[i] == e;
      if Hidden(input, i, oldest) {
        var p := input[i - 1];
        assert Less(p.key, input[i].key);
        assert p in rest + EntrySet(input) && Visible(p, user, snapshot);
        assert false;
      }
      assert e in out;
    }
    assert out <= EntrySet(input);
  }

  /** After an obsolete newest entry is dropped, only entries outside the stream remain visible. */
  lemma NothingOlderKept(input: seq<Entry>, oldest: nat, base: Bytes -> bool, user: Bytes, snapshot: nat, e: Entry)
    requires Merged(input) && oldest <= snapshot
    requires IsNewest(EntrySet(input), user, snapshot, e) && Obsolete(e, oldest, base)
    ensures !Found(EntrySet(Kept(input, |input|, oldest, base)), user, snapshot)
  {
    KeptMembers(input, |input|, oldest, base);
    var out := Kept(input, |input|, oldest, base);
    forall o | o in out
      ensures !Visible(o, user, snapshot)
    {
      if Visible(o, user, snapshot) {
        var j :| 0 <= j < |input| && input[j] == o && !Dropped(input, j, oldest, base);
        var i :| 0 <= i < |input| && input[i] == e;
        assert o in EntrySet(input);
        assert i < j;
        OlderIsHidden(input, i, j, oldest);
        assert false;
      }
    }
  }

  /** One key at one snapshot: reads agree when the key is not resurrected. */
  lemma ReadPreserved(rest: set<Entry>, input: seq<Entry>, oldest: nat, base: Bytes -> bool, user: Bytes, snapshot: nat)
    requires Merged(input) && Unique(rest + EntrySet(input)) && oldest <= snapshot
    requires !Resurrects(rest, EntrySet(input), oldest, base, user)
    ensures Read(rest + EntrySet(Kept(input, |input|, oldest, base)), user, snapshot)
         == Read(rest + EntrySet(input), user, snapshot)
  {
    var all := rest + EntrySet(input);
    var out := EntrySet(Kept(input, |input|, oldest, base));
    var after := rest + out;
    KeptMembers(input, |input|, oldest, base);
    assert after <= all;
    if Found(all, user, snapshot) {
      NewestExists(all, user, snapshot);
      var e :| IsNewest(all, user, snapshot, e);
      assert IsNewest(all, user, snapshot, e) && e in all;
      ReadIs(all, user, snapshot, e);
      if e in rest || !Obsolete(e, oldest, base) {
        DropStep(rest, input, oldest, base, user, snapshot, e);
        ReadIs(after, user, snapshot, e);
      } else {
        assert IsNewest(EntrySet(input), user, snapshot, e);
        NothingOlderKept(input, oldest, base, user, snapshot, e);
        if Found(after, user, snapshot) {
          NewestExists(after, user, snapshot);
          var r :| IsNewest(after, user, snapshot, r);
          assert IsNewest(after, user, snapshot, r) && r in after;
          ReadIs(after, user, snapshot, r);
          RestIsNewest(rest, EntrySet(input), out, user, oldest, snapshot, e, r);
        }
      }
    }
  }

  /** The witnesses that would make a key resurrect at `oldest` are the ones at `snapshot`. */
  lemma RestIsNewest(rest: set<Entry>, input: set<Entry>, out: set<Entry>, user: Bytes, oldest: nat, snapshot: nat,
                     e: Entry, r: Entry)
    requires oldest <= snapshot && !Found(out, user, snapshot) && out <= input
    requires e in input && IsNewest(rest + input, user, snapshot, e) && e.key.seqno <= oldest
    requires IsNewest(rest + out, user, snapshot, r)
    ensures IsNewest(rest + input, user, oldest, e) && IsNewest(rest, user, oldest, r)
  {
    assert r in rest + out;
    assert r in rest;
    assert r in rest + input && Visible(r, user, snapshot);
    assert forall o :: o in rest ==> o in rest + out && o in rest + input;
    assert forall o :: Visible(o, user, oldest) ==> Visible(o, user, snapshot);
  }

  /** A resurrected key reads differently at the oldest snapshot. */
  lemma ReadChanged(rest: set<Entry>, input: seq<Entry>, oldest: nat, base: Bytes -> bool, user: Bytes)
    requires Merged(input) && Unique(rest + EntrySet(input))
    requires Resurrects(rest, EntrySet(input), oldest, base, user)
    ensures Read(rest + EntrySet(input), user, oldest) == None
    ensures Read(rest + EntrySet(Kept(input, |input|, oldest, base)), user, oldest) != None
  {
    var all := rest + EntrySet(input);
    var out := EntrySet(Kept(input, |input|, oldest, base));
    var e, r :| e in EntrySet(input) && e.key.kind.Deletion? && IsNewest(all, user, oldest, e)
                && r in rest && r.key.kind.Value? && IsNewest(rest, user, oldest, r);
    ReadIs(all, user, oldest, e);
    KeptMembers(input, |input|, oldest, base);
    assert out <= EntrySet(input);
    assert IsNewest(EntrySet(input), user, oldest, e);
    NothingOlderKept(input, oldest, base, user, oldest, e);
    assert IsNewest(rest + out, user, oldest, r);
    ReadIs(rest + out, user, oldest, r);
  }

  /**
   The exact condition: dropping entries leaves every read at or above the oldest snapshot as it
   was if and only if no key is resurrected.
   */
  lemma DropsPreserveReadsExactly(rest: set<Entry>, input: seq<Entry>, oldest: nat, base: Bytes -> bool)
    requires Merged(input) && Unique(rest + EntrySet(input))
    ensures (forall user, snapshot ::
               oldest <= snapshot ==>
                 Read(rest + EntrySet(Kept(input, |input|, oldest, base)), user, snapshot)
                 == Read(rest + EntrySet(input), user, snapshot))
       <==> !exists user :: Resurrects(rest, EntrySet(input), oldest, base, user)
  {
    if user :| Resurrects(rest, EntrySet(input), oldest, base, user) {
      ReadChanged(rest, input, oldest, base, user);
    } else {
      forall user, snapshot | oldest <= snapshot
        ensures Read(rest + EntrySet(Kept(input, |input|, oldest, base)), user, snapshot)
             == Read(rest + EntrySet(input), user, snapshot)
      {
        ReadPreserved(rest, input, oldest, base, user, snapshot);
      }
    }
  }
}
