/**
 Sorted tables: blocks of entries under an index of shortened keys. A lookup that follows the
 index finds exactly what a search of all entries would find.
 */
module Table {
  import opened Keys
  import opened Reads
  import opened Drops
  import opened Versions

  /** The first differing byte decides the order. */
  lemma {:induction false} DiffDecides(a: Bytes, b: Bytes, i: nat)
    requires i < |a| && i < |b| && a[..i] == b[..i] && a[i] < b[i]
    ensures Ord(a) < Ord(b)
  {
    CompareIsOrd(a, b);
    DiffCompare(a, b, i);
  }

  lemma {:induction false} DiffCompare(a: Bytes, b: Bytes, i: nat)
    requires i < |a| && i < |b| && a[..i] == b[..i] && a[i] < b[i]
    ensures Compare(a, b) < 0
    decreases i
  {
    if i > 0 {
      assert a[0] == a[..i][0] == b[..i][0] == b[0];
      assert a[1..][..i - 1] == a[..i][1..] == b[..i][1..] == b[1..][..i - 1];
      DiffCompare(a[1..], b[1..], i - 1);
    }
  }

  /** The keys first differ at `i`, where there is room for a byte between them. */
  predicate RoomAt(start: Bytes, limit: Bytes, i: nat) {
    && i < |start| && i < |limit| && (forall j :: 0 <= j < i ==> start[j] == limit[j])
    && start[i] < 0xff && start[i] + 1 < limit[i]
  }

  /** There is at most one such place. */
  lemma RoomOnce(start: Bytes, limit: Bytes, i: nat, j: nat)
    requires RoomAt(start, limit, i) && RoomAt(start, limit, j)
    ensures i == j
  {
  }

  /** A key no longer than what two keys have in common lies outside them. */
  lemma {:induction false} ShortOutside(start: Bytes, limit: Bytes, i: nat, key: Bytes)
    requires i < |start| && i < |limit| && start[..i] == limit[..i] && |key| <= i
    ensures Ord(key) < Ord(start) || Ord(limit) < Ord(key)
  {
    ShortCompare(start, limit, i, key);
    CompareIsOrd(key, start);
    CompareIsOrd(limit, key);
  }

  lemma {:induction false} ShortCompare(start: Bytes, limit: Bytes, i: nat, key: Bytes)
    requires i < |start| && i < |limit| && start[..i] == limit[..i] && |key| <= i
    ensures Compare(key, start) < 0 || Compare(limit, key) < 0
    decreases i
  {
    if key != [] {
      assert start[0] == start[..i][0] == limit[..i][0] == limit[0];
      if key[0] == start[0] {
        assert start[1..][..i - 1] == start[..i][1..] == limit[..i][1..] == limit[1..][..i - 1];
        ShortCompare(start[1..], limit[1..], i - 1, key[1..]);
      }
    }
  }

  /** No key of these lengths is at or after the start. */
  ghost predicate NoneShorter(start: Bytes, limit: Option<Bytes>, n: nat) {
    forall key: Bytes :: Ord(start) <= Ord(key) && (limit.Some? ==> Ord(key) < Ord(limit.value)) ==> |key| >= n
  }

  /**
   A user key in [start, limit), by bumping the first differing byte. The start stays as it is unless
   there is a byte between the two; otherwise the result is as short as any key between them.
   */
  method FindShortestSeparator(start: Bytes, limit: Bytes) returns (r: Bytes)
    ensures r == start || (|r| <= |start| && Ord(start) < Ord(r) < Ord(limit))
    ensures r != start <==> exists i: nat :: RoomAt(start, limit, i)
    ensures r != start ==> RoomAt(start, limit, |r| - 1) && NoneShorter(start, Some(limit), |r|)
  {
    hide RoomAt, NoneShorter;
    var minLength := if |start| < |limit| then |start| else |limit|;
    var diff := 0;
    while diff < minLength && start[diff] == limit[diff]
      invariant 0 <= diff <= minLength && start[..diff] == limit[..diff]
    {
      diff := diff + 1;
    }
    r := start;
    if diff < minLength {
      var d := start[diff];
      if d < 0xff && d + 1 < limit[diff] {
        r := start[..diff] + [d + 1];
        RoomHere(start, limit, diff);
        Between(start, limit, diff, r);
        return;
      }
    }
    NoRoom(start, limit, diff);
  }

  lemma Between(start: Bytes, limit: Bytes, i: nat, r: Bytes)
    requires RoomAt(start, limit, i) && r == start[..i] + [start[i] + 1]
    ensures r != start && Ord(start) < Ord(r) < Ord(limit) && NoneShorter(start, Some(limit), |r|)
  {
    assert r[..i] == start[..i] == limit[..i];
    DiffDecides(start, r, i);
    DiffDecides(r, limit, i);
    hide RoomAt;
    forall key: Bytes | |key| <= i
      ensures !(Ord(start) <= Ord(key) < Ord(limit))
    {
      ShortOutside(start, limit, i, key);
    }
  }

  lemma RoomHere(start: Bytes, limit: Bytes, i: nat)
    requires i < |start| && i < |limit| && start[..i] == limit[..i] && start[i] < 0xff && start[i] + 1 < limit[i]
    ensures RoomAt(start, limit, i)
  {
    assert forall j :: 0 <= j < i ==> start[j] == start[..i][j] && limit[j] == limit[..i][j];
  }

  lemma NoRoom(start: Bytes, limit: Bytes, diff: nat)
    requires diff <= |start| && diff <= |limit| && start[..diff] == limit[..diff]
    requires diff == |start| || diff == |limit|
             || (start[diff] != limit[diff] && !(start[diff] < 0xff && start[diff] + 1 < limit[diff]))
    ensures !exists i: nat :: RoomAt(start, limit, i)
  {
    forall i: nat | i < diff
      ensures start[i] == limit[i]
    {
      assert start[..diff][i] == limit[..diff][i];
    }
  }

  /** A key no longer than a run of the highest byte is before any key that begins with more than that. */
  lemma {:induction false} RunCompare(start: Bytes, key: Bytes)
    requires |key| < |start| && forall i :: 0 <= i < |key| ==> start[i] == 0xff
    ensures Compare(key, start) < 0
    decreases |key|
  {
    if key != [] && key[0] == start[0] {
      RunCompare(start[1..], key[1..]);
    }
  }

  lemma RunIsShortest(start: Bytes, n: nat)
    requires n <= |start| && forall i :: 0 <= i < n - 1 ==> start[i] == 0xff
    ensures NoneShorter(start, None, n)
  {
    forall key: Bytes | |key| < n
      ensures Ord(key) < Ord(start)
    {
      RunCompare(start, key);
      CompareIsOrd(key, start);
    }
  }

  /** The shortest user key at or after `key`, by bumping the first byte that can be bumped. */
  method FindShortSuccessor(key: Bytes) returns (r: Bytes)
    ensures r == key || (|r| <= |key| && Ord(key) < Ord(r))
    ensures r == key <==> forall i :: 0 <= i < |key| ==> key[i] == 0xff
    ensures NoneShorter(key, None, |r|)
    ensures |r| < |key| <==> exists i :: 0 <= i < |key| - 1 && key[i] != 0xff
  {
    hide NoneShorter;
    for i := 0 to |key|
      invariant forall j :: 0 <= j < i ==> key[j] == 0xff
    {
      if key[i] != 0xff {
        r := key[..i] + [key[i] + 1];
        assert r[..i] == key[..i];
        DiffDecides(key, r, i);
        RunIsShortest(key, |r|);
        return;
      }
    }
    r := key;
    RunIsShortest(key, |r|);
  }

  /** An index key between the last key of a block and the first key of the next. */
  ghost predicate Separates(last: IKey, sep: IKey, next: IKey)
  {
    AtMost(last, sep) && Less(sep, next) && (sep == last || Ord(sep.user) < Ord(next.user))
  }

  /** An index key at or after the last key of the table. */
  ghost predicate Closes(last: IKey, sep: IKey)
  {
    AtMost(last, sep)
  }

  /**
   The start itself unless its user key gets shorter; then it is as short as a key between the two can
   be, and the newest number goes with it.
   */
  ghost predicate ShortenedBefore(start: IKey, sep: IKey, limit: IKey) {
    && (sep != start <==> exists i: nat :: RoomAt(start.user, limit.user, i) && i + 1 < |start.user|)
    && (sep != start ==>
          sep == IKey(sep.user, MAX_SEQUENCE, Value) && NoneShorter(start.user, Some(limit.user), |sep.user|))
  }

  /** The same with nothing to stay before. */
  ghost predicate Shortened(key: IKey, sep: IKey) {
    && (sep != key <==> exists i :: 0 <= i < |key.user| - 1 && key.user[i] != 0xff)
    && (sep != key ==> sep == IKey(sep.user, MAX_SEQUENCE, Value) && NoneShorter(key.user, None, |sep.user|))
  }

  method InternalSeparator(start: IKey, limit: IKey) returns (sep: IKey)
    requires Less(start, limit)
    ensures Separates(start, sep, limit) && (start.seqno <= MAX_SEQUENCE ==> sep.seqno <= MAX_SEQUENCE)
    ensures ShortenedBefore(start, sep, limit)
  {
    hide RoomAt, NoneShorter;
    var tmp := FindShortestSeparator(start.user, limit.user);
    if |tmp| < |start.user| && Ord(start.user) < Ord(tmp) {
      sep := IKey(tmp, MAX_SEQUENCE, Value);
    } else {
      sep := start;
      forall i: nat | RoomAt(start.user, limit.user, i)
        ensures i + 1 >= |start.user|
      {
        RoomOnce(start.user, limit.user, i, |tmp| - 1);
      }
    }
  }

  method InternalSuccessor(key: IKey) returns (sep: IKey)
    ensures Closes(key, sep) && (key.seqno <= MAX_SEQUENCE ==> sep.seqno <= MAX_SEQUENCE)
    ensures Shortened(key, sep)
  {
    hide NoneShorter;
    var tmp := FindShortSuccessor(key.user);
    if |tmp| < |key.user| && Ord(key.user) < Ord(tmp) {
      sep := IKey(tmp, MAX_SEQUENCE, Value);
    } else {
      sep := key;
    }
  }

  function Flatten(blocks: seq<seq<Entry>>): seq<Entry>
  {
    if blocks == [] then [] else Flatten(blocks[..|blocks| - 1]) + blocks[|blocks| - 1]
  }

  function First(block: seq<Entry>): IKey
    requires block != []
  {
    block[0].key
  }

  function Last(block: seq<Entry>): IKey
    requires block != []
  {
    block[|block| - 1].key
  }

  /** Nonempty blocks, each with an index key; the last one's index key may still be missing. */
  ghost predicate Indexed(blocks: seq<seq<Entry>>, index: seq<IKey>)
  {
    && (forall i :: 0 <= i < |blocks| ==> blocks[i] != [])
    && |index| <= |blocks| <= |index| + 1
    && (forall i :: 0 <= i < |index| && i + 1 < |blocks| ==> Separates(Last(blocks[i]), index[i], First(blocks[i + 1])))
    && (|index| == |blocks| > 0 ==> Closes(Last(blocks[|index| - 1]), index[|index| - 1]))
  }

  lemma {:induction false} FlattenSnoc(blocks: seq<seq<Entry>>, block: seq<Entry>)
    ensures Flatten(blocks + [block]) == Flatten(blocks) + block
  {
    assert (blocks + [block])[..|blocks|] == blocks;
  }

  /** The index so far separates the blocks, and its last key separates them from the block under construction. */
  ghost predicate IndexedSoFar(blocks: seq<seq<Entry>>, index: seq<IKey>, dataBlock: seq<Entry>)
  {
    && |index| <= |blocks| <= |index| + 1 && (forall i :: 0 <= i < |blocks| ==> blocks[i] != [])
    && (forall i :: 0 <= i < |index| && i + 1 < |blocks| ==> Separates(Last(blocks[i]), index[i], First(blocks[i + 1])))
    && (|index| == |blocks| > 0 ==>
          dataBlock != [] && Separates(Last(blocks[|blocks| - 1]), index[|index| - 1], First(dataBlock)))
  }

  lemma LastOfFlatten(blocks: seq<seq<Entry>>, dataBlock: seq<Entry>)
    requires blocks != [] && dataBlock == [] && blocks[|blocks| - 1] != []
    ensures var all := Flatten(blocks) + dataBlock; all != [] && all[|all| - 1].key == Last(blocks[|blocks| - 1])
  {
  }

  lemma AddIndexed(blocks: seq<seq<Entry>>, index: seq<IKey>, dataBlock: seq<Entry>, e: Entry)
    requires |index| == |blocks| && (forall i :: 0 <= i < |blocks| ==> blocks[i] != [])
    requires forall i :: 0 <= i < |index| && i + 1 < |blocks| ==>
                           Separates(Last(blocks[i]), index[i], First(blocks[i + 1]))
    requires |blocks| > 0 && dataBlock != [] ==>
               Separates(Last(blocks[|blocks| - 1]), index[|index| - 1], First(dataBlock))
    requires |blocks| > 0 && dataBlock == [] ==> Separates(Last(blocks[|blocks| - 1]), index[|index| - 1], e.key)
    ensures IndexedSoFar(blocks, index, dataBlock + [e])
  {
  }

  lemma FlushIndexed(blocks: seq<seq<Entry>>, index: seq<IKey>, dataBlock: seq<Entry>)
    requires IndexedSoFar(blocks, index, dataBlock) && dataBlock != [] && |index| == |blocks|
    ensures IndexedSoFar(blocks + [dataBlock], index, [])
  {
  }

  lemma {:induction false} FlattenMembers(blocks: seq<seq<Entry>>)
    ensures forall e :: e in Flatten(blocks) <==> exists i :: 0 <= i < |blocks| && e in blocks[i]
  {
    if blocks != [] {
      var n := |blocks| - 1;
      FlattenMembers(blocks[..n]);
      assert forall i :: 0 <= i < n ==> blocks[..n][i] == blocks[i];
      forall e
        ensures e in Flatten(blocks) <==> exists i :: 0 <= i < |blocks| && e in blocks[i]
      {
        if e in blocks[n] {
        } else if i :| 0 <= i < n && e in blocks[..n][i] {
          assert e in blocks[i];
        }
      }
    }
  }

  /** The newest visible entry of the whole table, characterised without positions. */
  lemma TableGetUnique(es: seq<Entry>, user: Bytes, snapshot: nat, e: Entry)
    requires Merged(es) && e in es && Visible(e, user, snapshot)
    requires forall o :: o in es && Visible(o, user, snapshot) ==> o.key.seqno <= e.key.seqno
    ensures TableGet(es, user, snapshot) == Some(e)
  {
    TableGetIsNewest(es, user, snapshot);
    hide TableGet;
    assert e in EntrySet(es);
    var r := TableGet(es, user, snapshot);
    assert r.Some?;
    assert r.value in EntrySet(es) && Visible(r.value, user, snapshot);
    var i :| 0 <= i < |es| && es[i] == e;
    var j :| 0 <= j < |es| && es[j] == r.value;
  }

  lemma TableGetNone(es: seq<Entry>, user: Bytes, snapshot: nat)
    requires Merged(es) && forall o :: o in es ==> !Visible(o, user, snapshot)
    ensures TableGet(es, user, snapshot) == None
  {
    TableGetIsNewest(es, user, snapshot);
    hide TableGet;
    assert forall o :: o in EntrySet(es) ==> o in es;
  }

  lemma {:induction false} MergedBlock(blocks: seq<seq<Entry>>, i: nat)
    requires Merged(Flatten(blocks)) && i < |blocks|
    ensures Merged(blocks[i])
  {
    var n := |blocks| - 1;
    MergedSplit(Flatten(blocks[..n]), blocks[n]);
    hide Merged, Flatten;
    if i < n {
      MergedBlock(blocks[..n], i);
    }
  }

  /** Entries of a block of a merged table follow those of earlier blocks. */
  lemma {:induction false} BlockOrder(blocks: seq<seq<Entry>>, i: nat, j: nat, a: Entry, b: Entry)
    requires Merged(Flatten(blocks)) && i < j < |blocks| && a in blocks[i] && b in blocks[j]
    ensures Less(a.key, b.key)
  {
    var n := |blocks| - 1;
    var front := blocks[..n];
    MergedSplit(Flatten(front), blocks[n]);
    hide Merged, Flatten, Less;
    assert front[i] == blocks[i];
    if j < n {
      BlockOrder(front, i, j, a, b);
    } else {
      FlattenMembers(front);
      assert a in front[i];
    }
  }

  lemma InBlock(block: seq<Entry>, e: Entry)
    requires Merged(block) && e in block
    ensures AtMost(First(block), e.key) && AtMost(e.key, Last(block))
  {
    var i :| 0 <= i < |block| && block[i] == e;
    if i > 0 {
      assert Less(block[0].key, block[i].key);
    }
    if i < |block| - 1 {
      assert Less(block[i].key, block[|block| - 1].key);
    }
  }

  /** Blocks before the one selected end before the lookup key. */
  lemma EarlierBlocks(blocks: seq<seq<Entry>>, index: seq<IKey>, i: nat, user: Bytes, snapshot: nat, j: nat, o: Entry)
    requires Indexed(blocks, index) && |index| == |blocks| && i <= |index| && j < i && o in blocks[j]
    requires Merged(blocks[j])
    requires forall j :: 0 <= j < i ==> Less(index[j], LookupKey(user, snapshot))
    ensures !Visible(o, user, snapshot)
  {
    InBlock(blocks[j], o);
    assert AtMost(Last(blocks[j]), index[j]) by {
      if j + 1 < |blocks| {
        assert Separates(Last(blocks[j]), index[j], First(blocks[j + 1]));
      }
    }
    hide Merged, Indexed;
    assert Less(index[j], LookupKey(user, snapshot));
  }

  /** A block after the selected one holds only older entries of the key, and none if the selected block has none. */
  lemma LaterBlocks(blocks: seq<seq<Entry>>, index: seq<IKey>, i: nat, user: Bytes, snapshot: nat, j: nat, o: Entry)
    requires Indexed(blocks, index) && |index| == |blocks| && i < j < |blocks| && o in blocks[j] && Merged(blocks[i])
    requires AtMost(LookupKey(user, snapshot), index[i]) && Visible(o, user, snapshot)
    requires Less(Last(blocks[i]), o.key) && AtMost(First(blocks[i + 1]), o.key)
    ensures Dominated(blocks[i], user, snapshot, o)
  {
    var last := blocks[i][|blocks[i]| - 1];
    assert Separates(Last(blocks[i]), index[i], First(blocks[i + 1]));
    hide Merged, Indexed;
    assert last in EntrySet(blocks[i]);
    assert Ord(index[i].user) >= Ord(user);
    assert index[i] == last.key;
    assert Visible(last, user, snapshot);
  }

  lemma LookupInBlock(blocks: seq<seq<Entry>>, index: seq<IKey>, i: nat, user: Bytes, snapshot: nat)
    requires Indexed(blocks, index) && |index| == |blocks| && Merged(Flatten(blocks))
    requires i < |index| && AtMost(LookupKey(user, snapshot), index[i])
    requires forall j :: 0 <= j < i ==> Less(index[j], LookupKey(user, snapshot))
    ensures TableGet(Flatten(blocks), user, snapshot) == TableGet(blocks[i], user, snapshot)
  {
    var all := Flatten(blocks);
    var r := TableGet(blocks[i], user, snapshot);
    MergedBlock(blocks, i);
    TableGetIsNewest(blocks[i], user, snapshot);
    FlattenMembers(blocks);
    hide Merged, Indexed, Flatten, TableGet;
    forall o | o in all && Visible(o, user, snapshot)
      ensures Dominated(blocks[i], user, snapshot, o)
    {
      var j :| 0 <= j < |blocks| && o in blocks[j];
      OtherBlock(blocks, index, i, user, snapshot, j, o);
    }
    if r.Some? {
      assert r.value in EntrySet(blocks[i]);
      TableGetUnique(all, user, snapshot, r.value);
    } else {
      TableGetNone(all, user, snapshot);
    }
  }

  /** The block has a visible entry of the key at least as new. */
  ghost predicate Dominated(block: seq<Entry>, user: Bytes, snapshot: nat, o: Entry)
  {
    exists a :: a in EntrySet(block) && Visible(a, user, snapshot) && o.key.seqno <= a.key.seqno
  }

  lemma OtherBlock(blocks: seq<seq<Entry>>, index: seq<IKey>, i: nat, user: Bytes, snapshot: nat, j: nat, o: Entry)
    requires Indexed(blocks, index) && |index| == |blocks| && Merged(Flatten(blocks))
    requires i < |index| && AtMost(LookupKey(user, snapshot), index[i])
    requires forall j :: 0 <= j < i ==> Less(index[j], LookupKey(user, snapshot))
    requires j < |blocks| && o in blocks[j] && Visible(o, user, snapshot)
    ensures Dominated(blocks[i], user, snapshot, o)
  {
    MergedBlock(blocks, i);
    MergedBlock(blocks, j);
    if j == i {
      assert o in EntrySet(blocks[i]);
    } else if j < i {
      hide Merged, Flatten, Indexed, Less;
      EarlierBlocks(blocks, index, i, user, snapshot, j, o);
    } else {
      var last, next := blocks[i][|blocks[i]| - 1], blocks[i + 1][0];
      assert last in blocks[i] && next in blocks[i + 1];
      hide Merged, Flatten, Indexed, Less, LookupKey;
      BlockOrder(blocks, i, j, last, o);
      assert AtMost(First(blocks[i + 1]), o.key) by {
        if j == i + 1 {
          InBlock(blocks[j], o);
        } else {
          BlockOrder(blocks, i + 1, j, next, o);
          LessIsAtMost(next.key, o.key);
        }
      }
      LaterBlocks(blocks, index, i, user, snapshot, j, o);
    }
  }

  lemma LessIsAtMost(a: IKey, b: IKey)
    requires Less(a, b)
    ensures AtMost(a, b)
  {
  }

  lemma LookupPastEnd(blocks: seq<seq<Entry>>, index: seq<IKey>, user: Bytes, snapshot: nat)
    requires Indexed(blocks, index) && |index| == |blocks| && Merged(Flatten(blocks))
    requires forall j :: 0 <= j < |index| ==> Less(index[j], LookupKey(user, snapshot))
    ensures TableGet(Flatten(blocks), user, snapshot) == None
  {
    FlattenMembers(blocks);
    hide Merged, Indexed, Flatten;
    forall o | o in Flatten(blocks)
      ensures !Visible(o, user, snapshot)
    {
      var j :| 0 <= j < |blocks| && o in blocks[j];
      MergedBlock(blocks, j);
      EarlierBlocks(blocks, index, |index|, user, snapshot, j, o);
    }
    TableGetNone(Flatten(blocks), user, snapshot);
  }
}
