/**
 The cache's hash table: chains of entries, one for each bucket, grown by doubling. The links run
 through the entries; `list` says what the chains are.
 */
module HandleTable {
  import opened Keys
  import opened Coding

  type Hash = Bytes -> u32

  /** A cache entry as the table sees it. */
  datatype Slot = Slot(key: Bytes, hash: u32, id: nat)

  /** The slots of a bucket have the hash of their key, belong there, and have different keys. */
  ghost predicate BucketOk(hash: Hash, bucket: seq<Slot>, length: nat, i: nat)
    requires length > 0
  {
    && (forall a :: 0 <= a < |bucket| ==> bucket[a].hash == hash(bucket[a].key) && bucket[a].hash % length == i)
    && (forall a, b :: 0 <= a < b < |bucket| ==> bucket[a].key != bucket[b].key)
  }

  ghost predicate ListOk(hash: Hash, list: seq<seq<Slot>>) {
    |list| > 0 && forall i :: 0 <= i < |list| ==> BucketOk(hash, list[i], |list|, i)
  }

  ghost predicate Holds(list: seq<seq<Slot>>, s: Slot) {
    exists i :: 0 <= i < |list| && s in list[i]
  }

  function Total(list: seq<seq<Slot>>): nat {
    if list == [] then 0 else Total(list[..|list| - 1]) + |list[|list| - 1]|
  }

  lemma {:induction false} TotalUpdate(list: seq<seq<Slot>>, i: nat, bucket: seq<Slot>)
    requires i < |list|
    ensures Total(list[i := bucket]) == Total(list) - |list[i]| + |bucket|
    decreases |list|
  {
    var n := |list| - 1;
    if i < n {
      TotalUpdate(list[..n], i, bucket);
      assert list[i := bucket][..n] == list[..n][i := bucket];
    } else {
      assert list[i := bucket][..n] == list[..n];
    }
  }

  /** A slot can only be in the bucket of its hash. */
  lemma HeldInBucket(hash: Hash, list: seq<seq<Slot>>, s: Slot)
    requires ListOk(hash, list)
    ensures Holds(list, s) <==> s.hash == hash(s.key) && s in list[s.hash % |list|]
  {
    if Holds(list, s) {
      var i :| 0 <= i < |list| && s in list[i];
      assert BucketOk(hash, list[i], |list|, i);
    }
  }

  /** The first slot of the bucket with the key, or the end of the bucket. */
  function Find(bucket: seq<Slot>, key: Bytes, h: u32, from: nat): (k: nat)
    requires from <= |bucket|
    ensures from <= k <= |bucket| && (k < |bucket| ==> bucket[k].hash == h && bucket[k].key == key)
    ensures forall j :: from <= j < k ==> bucket[j].hash != h || bucket[j].key != key
    decreases |bucket| - from
  {
    if from == |bucket| || (bucket[from].hash == h && bucket[from].key == key) then from
    else Find(bucket, key, h, from + 1)
  }

  /** The table as a map. */
  ghost predicate Represents(list: seq<seq<Slot>>, m: map<Bytes, nat>, hash: Hash) {
    forall s :: Holds(list, s) <==> s.hash == hash(s.key) && s.key in m && m[s.key] == s.id
  }

  // The chains

  /** An entry in a chain, and its next_hash. */
  datatype Link = Link(slot: Slot, next: Option<nat>)

  /** What leads to place `k` of a chain. */
  function IdAt(bucket: seq<Slot>, k: nat): Option<nat> {
    if k < |bucket| then Some(bucket[k].id) else None
  }

  ghost predicate LinkAt(links: map<nat, Link>, bucket: seq<Slot>, k: nat)
    requires k < |bucket|
  {
    bucket[k].id in links && links[bucket[k].id] == Link(bucket[k], IdAt(bucket, k + 1))
  }

  /** From each head the links run along its bucket. */
  ghost predicate Linked(heads: seq<Option<nat>>, links: map<nat, Link>, list: seq<seq<Slot>>) {
    && |heads| == |list| && (forall i :: 0 <= i < |list| ==> heads[i] == IdAt(list[i], 0))
    && forall i, k :: 0 <= i < |list| && 0 <= k < |list[i]| ==> LinkAt(links, list[i], k)
  }

  /** No entry is in two places. */
  ghost predicate Apart(list: seq<seq<Slot>>) {
    forall i, k, j, m :: 0 <= i < |list| && 0 <= k < |list[i]| && 0 <= j < |list| && 0 <= m < |list[j]| &&
                         list[i][k].id == list[j][m].id ==>
                           i == j && k == m
  }

  ghost predicate Injective(m: map<Bytes, nat>) {
    forall a, b :: a in m && b in m && m[a] == m[b] ==> a == b
  }

  lemma OnePlace(hash: Hash, list: seq<seq<Slot>>, m: map<Bytes, nat>)
    requires ListOk(hash, list) && Represents(list, m, hash) && Injective(m)
    ensures Apart(list)
  {
    forall i, k, j, n | 0 <= i < |list| && 0 <= k < |list[i]| && 0 <= j < |list| && 0 <= n < |list[j]| &&
                        list[i][k].id == list[j][n].id
      ensures i == j && k == n
    {
      var s, t := list[i][k], list[j][n];
      assert Holds(list, s) && Holds(list, t);
      assert BucketOk(hash, list[i], |list|, i) && BucketOk(hash, list[j], |list|, j);
    }
  }

  /** A new entry takes a place at or behind the end of a chain: what leads there now leads to it. */
  lemma LinkIn(heads: seq<Option<nat>>, links: map<nat, Link>, list: seq<seq<Slot>>, i: nat, k: nat, slot: Slot)
    requires Linked(heads, links, list) && Apart(list) && i < |list| && k <= |list[i]|
    requires forall j, m :: 0 <= j < |list| && 0 <= m < |list[j]| ==> list[j][m].id != slot.id
    ensures k > 0 ==> list[i][k - 1].id in links
    ensures var bucket := if k < |list[i]| then list[i][k := slot] else list[i] + [slot];
            var entry := Link(slot, if k < |list[i]| then IdAt(list[i], k + 1) else None);
            var to := Aim(heads, links[slot.id := entry], i, if k == 0 then None else Some(list[i][k - 1].id),
                          Some(slot.id));
            Linked(to.0, to.1, list[i := bucket])
  {
    assert k > 0 ==> LinkAt(links, list[i], k - 1);
    var bucket := if k < |list[i]| then list[i][k := slot] else list[i] + [slot];
    var entry := Link(slot, if k < |list[i]| then IdAt(list[i], k + 1) else None);
    var to := Aim(heads, links[slot.id := entry], i, if k == 0 then None else Some(list[i][k - 1].id), Some(slot.id));
    var list' := list[i := bucket];
    forall j, m | 0 <= j < |list'| && 0 <= m < |list'[j]|
      ensures LinkAt(to.1, list'[j], m)
    {
      if j != i || m != k {
        assert LinkAt(links, list[j], m);
      }
    }
  }

  /** What led to an entry leads to the one behind it. */
  lemma LinkOut(heads: seq<Option<nat>>, links: map<nat, Link>, list: seq<seq<Slot>>, i: nat, k: nat)
    requires Linked(heads, links, list) && Apart(list) && i < |list| && k < |list[i]|
    ensures list[i][k].id in links && (k > 0 ==> list[i][k - 1].id in links)
    ensures var bucket := list[i][..k] + list[i][k + 1..];
            var to := Aim(heads, links, i, if k == 0 then None else Some(list[i][k - 1].id),
                          links[list[i][k].id].next);
            Linked(to.0, to.1, list[i := bucket])
  {
    assert LinkAt(links, list[i], k) && (k > 0 ==> LinkAt(links, list[i], k - 1));
    var bucket := list[i][..k] + list[i][k + 1..];
    var to := Aim(heads, links, i, if k == 0 then None else Some(list[i][k - 1].id), links[list[i][k].id].next);
    var list' := list[i := bucket];
    forall j, m | 0 <= j < |list'| && 0 <= m < |list'[j]|
      ensures LinkAt(to.1, list'[j], m)
    {
      if j != i {
        assert LinkAt(links, list[j], m);
      } else if m < k {
        assert LinkAt(links, list[i], m);
      } else {
        assert LinkAt(links, list[i], m + 1);
      }
    }
  }

  /** Stores through the pointer that FindPointer returns: into a bucket, or into an entry's next_hash. */
  function Aim(heads: seq<Option<nat>>, links: map<nat, Link>, i: nat, before: Option<nat>, id: Option<nat>):
    (seq<Option<nat>>, map<nat, Link>)
    requires i < |heads| && (before.Some? ==> before.value in links)
  {
    if before.None? then (heads[i := id], links)
    else (heads, links[before.value := links[before.value].(next := id)])
  }

  class HandleTable {
    const hash: Hash
    var length: nat
    var elems: nat
    var heads: seq<Option<nat>>
    var links: map<nat, Link>
    ghost var list: seq<seq<Slot>>
    ghost var contents: map<Bytes, nat>

    ghost predicate Valid()
      reads this
    {
      && ListOk(hash, list) && |list| == length && elems == Total(list) && Represents(list, contents, hash)
      && Injective(contents) && Linked(heads, links, list)
    }

    /** Walks a chain to the entry with the key, or to its end. */
    method FindPointer(key: Bytes, h: u32) returns (before: Option<nat>, at: Option<nat>, ghost k: nat)
      requires length > 0 && |list| == length && Linked(heads, links, list)
      ensures var bucket := list[h % length];
              && k == Find(bucket, key, h, 0) && at == IdAt(bucket, k)
              && before == if k == 0 then None else Some(bucket[k - 1].id)
      ensures at.Some? ==>
                at.value in links && links[at.value] == Link(list[h % length][k], IdAt(list[h % length], k + 1))
      ensures before.Some? ==> before.value in links
    {
      ghost var bucket := list[h % length];
      before, at, k := None, heads[h % length], 0;
      assert at.Some? ==> LinkAt(links, bucket, 0);
      while at.Some? && (links[at.value].slot.hash != h || key != links[at.value].slot.key)
        invariant k <= |bucket| && at == IdAt(bucket, k) && Find(bucket, key, h, 0) == Find(bucket, key, h, k)
        invariant at.Some? ==> LinkAt(links, bucket, k)
        invariant before == if k == 0 then None else Some(bucket[k - 1].id)
        invariant before.Some? ==> before.value in links
        decreases |bucket| - k
      {
        assert k + 1 < |bucket| ==> LinkAt(links, bucket, k + 1);
        before, at, k := at, links[at.value].next, k + 1;
      }
    }

    constructor (hash: Hash)
      ensures Valid() && contents == map[] && this.hash == hash
    {
      this.hash := hash;
      length, elems := 4, 0;
      heads, links := [None, None, None, None], map[];
      list, contents := [[], [], [], []], map[];
      new;
      EmptyOk(hash, list);
    }

    method Lookup(key: Bytes) returns (r: Option<nat>)
      requires Valid()
      ensures r == if key in contents then Some(contents[key]) else None
    {
      LookupBounds(hash, list);
      var before, at, k := FindPointer(key, hash(key));
      LookupIs(hash, list, contents, key, k);
      r := at;
    }

    /** Puts an entry in; hands back the one with the same key that it replaces. */
    method Insert(key: Bytes, id: nat) returns (replaced: Option<nat>)
      requires Valid() && forall other :: other in contents ==> contents[other] != id
      modifies this
      ensures Valid() && contents == old(contents)[key := id]
      ensures replaced == if key in old(contents) then Some(old(contents)[key]) else None
    {
      hide ListOk, Represents, Total, BucketOk, Linked, Apart, Find;
      LookupBounds(hash, list);
      OnePlace(hash, list, contents);
      var h := hash(key);
      var i := h % length;
      var before, at, k := FindPointer(key, h);
      LookupIs(hash, list, contents, key, k);
      replaced := at;
      var slot := Slot(key, h, id);
      ghost var bucket := if k < |list[i]| then list[i][k := slot] else list[i] + [slot];
      InsertIs(hash, list, contents, slot, k);
      TotalUpdate(list, i, bucket);
      NewId(hash, list, contents, id);
      LinkIn(heads, links, list, i, k, slot);
      HeadsMatch(heads, links, list);
      links := links[id := Link(slot, if at.None? then None else links[at.value].next)];
      var stored := Aim(heads, links, i, before, Some(id));
      heads, links := stored.0, stored.1;
      list, contents := list[i := bucket], contents[key := id];
      if at.None? {
        elems := elems + 1;
        if elems > length {
          Resize();
        }
      }
    }

    method Remove(key: Bytes) returns (removed: Option<nat>)
      requires Valid()
      modifies this
      ensures Valid() && contents == old(contents) - {key}
      ensures removed == if key in old(contents) then Some(old(contents)[key]) else None
    {
      hide ListOk, Represents, Total, BucketOk, Linked, Apart, Find;
      LookupBounds(hash, list);
      OnePlace(hash, list, contents);
      var h := hash(key);
      var i := h % length;
      var before, at, k := FindPointer(key, h);
      LookupIs(hash, list, contents, key, k);
      removed := at;
      if at.None? {
        assert contents == contents - {key};
        return;
      }
      ghost var bucket := list[i][..k] + list[i][k + 1..];
      RemoveIs(hash, list, contents, key, k);
      TotalUpdate(list, i, bucket);
      LinkOut(heads, links, list, i, k);
      HeadsMatch(heads, links, list);
      var stored := Aim(heads, links, i, before, links[at.value].next);
      heads, links := stored.0, stored.1;
      elems := elems - 1;
      list, contents := list[i := bucket], contents - {key};
    }

    method Resize()
      requires Valid()
      modifies this
      ensures Valid() && contents == old(contents) && length >= elems
    {
      hide ListOk, Total, Linked, Apart, Holds, BucketOk;
      OnePlace(hash, list, contents);
      var newLength := 4;
      while newLength < elems
        invariant newLength >= 4
      {
        newLength := newLength * 2;
      }
      var newHeads, newLinks, count;
      ghost var newList;
      newHeads, newLinks, count, newList := Rehash(hash, heads, links, newLength, list);
      assert count == elems;
      heads, links, list := newHeads, newLinks, newList;
      length := newLength;
    }
  }

  lemma HeadsMatch(heads: seq<Option<nat>>, links: map<nat, Link>, list: seq<seq<Slot>>)
    requires Linked(heads, links, list)
    ensures |heads| == |list|
  {
  }

  lemma NewId(hash: Hash, list: seq<seq<Slot>>, m: map<Bytes, nat>, id: nat)
    requires Represents(list, m, hash) && forall other :: other in m ==> m[other] != id
    ensures forall j, k :: 0 <= j < |list| && 0 <= k < |list[j]| ==> list[j][k].id != id
  {
    forall j, k | 0 <= j < |list| && 0 <= k < |list[j]|
      ensures list[j][k].id != id
    {
      assert Holds(list, list[j][k]);
    }
  }

  /** Empty buckets. */
  lemma {:induction false} EmptyTotal(list: seq<seq<Slot>>)
    requires forall i :: 0 <= i < |list| ==> list[i] == []
    ensures Total(list) == 0
    decreases |list|
  {
    if list != [] {
      EmptyTotal(list[..|list| - 1]);
    }
  }

  lemma EmptyOk(hash: Hash, list: seq<seq<Slot>>)
    requires |list| > 0 && forall i :: 0 <= i < |list| ==> list[i] == []
    ensures ListOk(hash, list) && Total(list) == 0 && forall s :: !Holds(list, s)
  {
    EmptyTotal(list);
  }

  /** The slot is in one of the first `i` buckets, or among the first `j` slots of the next. */
  ghost predicate Passed(list: seq<seq<Slot>>, i: nat, j: nat, s: Slot) {
    (exists a :: 0 <= a < i && a < |list| && s in list[a]) || (i < |list| && j <= |list[i]| && s in list[i][..j])
  }

  ghost predicate Moved(list: seq<seq<Slot>>, i: nat, j: nat, newList: seq<seq<Slot>>) {
    forall s :: Holds(newList, s) <==> Passed(list, i, j, s)
  }

  lemma NotPassed(hash: Hash, list: seq<seq<Slot>>, i: nat, j: nat, s: Slot)
    requires ListOk(hash, list) && i < |list| && j < |list[i]| && Passed(list, i, j, s)
    ensures s.key != list[i][j].key
  {
    assert BucketOk(hash, list[i], |list|, i);
    if a :| 0 <= a < i && s in list[a] {
      assert BucketOk(hash, list[a], |list|, a);
    } else {
      var b :| 0 <= b < j && list[i][..j][b] == s;
      assert list[i][b] == s;
    }
  }

  lemma PassOne(list: seq<seq<Slot>>, i: nat, j: nat, s: Slot)
    requires i < |list| && j < |list[i]|
    ensures Passed(list, i, j + 1, s) <==> Passed(list, i, j, s) || s == list[i][j]
  {
    assert list[i][..j + 1] == list[i][..j] + [list[i][j]];
  }

  lemma PassBucket(list: seq<seq<Slot>>, i: nat, s: Slot)
    requires i < |list|
    ensures Passed(list, i, |list[i]|, s) <==> Passed(list, i + 1, 0, s)
  {
    assert list[i][..|list[i]|] == list[i];
  }

  /** Pushes the next slot onto its new bucket. */
  lemma PushIs(hash: Hash, list: seq<seq<Slot>>, i: nat, j: nat, newList: seq<seq<Slot>>)
    requires ListOk(hash, list) && ListOk(hash, newList) && i < |list| && j < |list[i]| && Moved(list, i, j, newList)
    ensures var h := list[i][j];
            var t := h.hash % |newList|;
            var newList' := newList[t := [h] + newList[t]];
            ListOk(hash, newList') && Moved(list, i, j + 1, newList') && Total(newList') == Total(newList) + 1
  {
    var h := list[i][j];
    var t := h.hash % |newList|;
    var newList' := newList[t := [h] + newList[t]];
    TotalUpdate(newList, t, [h] + newList[t]);
    assert BucketOk(hash, list[i], |list|, i);
    forall s | s in newList[t]
      ensures s.key != h.key
    {
      assert Holds(newList, s);
      NotPassed(hash, list, i, j, s);
    }
    PushOk(hash, newList, t, h);
    hide BucketOk, ListOk;
    forall s
      ensures Holds(newList', s) <==> Passed(list, i, j + 1, s)
    {
      PassOne(list, i, j, s);
      PushHolds(newList, t, h, s);
    }
  }

  lemma PushHolds(list: seq<seq<Slot>>, t: nat, h: Slot, s: Slot)
    requires t < |list|
    ensures Holds(list[t := [h] + list[t]], s) <==> Holds(list, s) || s == h
  {
    var list' := list[t := [h] + list[t]];
    if Holds(list, s) {
      var a :| 0 <= a < |list| && s in list[a];
      assert s in list'[a];
    }
    if s == h {
      assert s in list'[t];
    }
    if Holds(list', s) {
      var a :| 0 <= a < |list'| && s in list'[a];
      assert s == h || s in list[a];
    }
  }

  lemma PushOk(hash: Hash, list: seq<seq<Slot>>, t: nat, h: Slot)
    requires ListOk(hash, list) && h.hash == hash(h.key) && t == h.hash % |list|
    requires forall s :: s in list[t] ==> s.key != h.key
    ensures ListOk(hash, list[t := [h] + list[t]])
  {
    var bucket := [h] + list[t];
    assert BucketOk(hash, list[t], |list|, t);
    assert BucketOk(hash, bucket, |list|, t);
  }

  /** What is left of the old chains: from place `j` of bucket `i` on. */
  ghost predicate Left(links: map<nat, Link>, list: seq<seq<Slot>>, i: nat, j: nat) {
    forall a, b :: 0 <= a < |list| && 0 <= b < |list[a]| && (a > i || (a == i && b >= j)) ==> LinkAt(links, list[a], b)
  }

  /** Moving one entry keeps the new chains and what is left of the old ones. */
  lemma LinkMoved(list: seq<seq<Slot>>, i: nat, j: nat, newHeads: seq<Option<nat>>, links: map<nat, Link>,
                  newList: seq<seq<Slot>>, t: nat)
    requires Apart(list) && i < |list| && j < |list[i]| && Moved(list, i, j, newList) && t < |newList|
    requires Linked(newHeads, links, newList) && Left(links, list, i, j)
    ensures list[i][j].id in links
    ensures var h := list[i][j];
            var links' := links[h.id := Link(h, newHeads[t])];
            Linked(newHeads[t := Some(h.id)], links', newList[t := [h] + newList[t]]) && Left(links', list, i, j + 1)
  {
    var h := list[i][j];
    assert LinkAt(links, list[i], j);
    var links', newList' := links[h.id := Link(h, newHeads[t])], newList[t := [h] + newList[t]];
    forall a, b | 0 <= a < |newList| && 0 <= b < |newList[a]|
      ensures newList[a][b].id != h.id
    {
      assert Holds(newList, newList[a][b]);
      OtherId(list, i, j, newList[a][b]);
    }
    forall a, b | 0 <= a < |newList'| && 0 <= b < |newList'[a]|
      ensures LinkAt(links', newList'[a], b)
    {
      if a != t {
        assert LinkAt(links, newList[a], b);
      } else if b > 0 {
        assert LinkAt(links, newList[a], b - 1);
      }
    }
    forall a, b | 0 <= a < |list| && 0 <= b < |list[a]| && (a > i || (a == i && b >= j + 1))
      ensures LinkAt(links', list[a], b)
    {
      assert LinkAt(links, list[a], b);
    }
  }

  lemma OtherId(list: seq<seq<Slot>>, i: nat, j: nat, s: Slot)
    requires Apart(list) && i < |list| && j < |list[i]| && Passed(list, i, j, s)
    ensures s.id != list[i][j].id
  {
    if a :| 0 <= a < i && s in list[a] {
      var b :| 0 <= b < |list[a]| && list[a][b] == s;
    } else {
      var b :| 0 <= b < j && list[i][..j][b] == s;
      assert list[i][b] == s;
    }
  }

  lemma NextBucket(links: map<nat, Link>, list: seq<seq<Slot>>, i: nat, newList: seq<seq<Slot>>)
    requires i < |list| && Left(links, list, i, |list[i]|) && Moved(list, i, |list[i]|, newList)
    ensures Left(links, list, i + 1, 0) && Moved(list, i + 1, 0, newList)
  {
    hide LinkAt, Passed, Holds;
    forall s
      ensures Passed(list, i, |list[i]|, s) <==> Passed(list, i + 1, 0, s)
    {
      PassBucket(list, i, s);
    }
  }

  /** Distributes the entries over new buckets. */
  method Rehash(hash: Hash, heads: seq<Option<nat>>, oldLinks: map<nat, Link>, newLength: nat,
                ghost list: seq<seq<Slot>>)
    returns (newHeads: seq<Option<nat>>, links: map<nat, Link>, count: nat, ghost newList: seq<seq<Slot>>)
    requires ListOk(hash, list) && newLength > 0 && Linked(heads, oldLinks, list) && Apart(list)
    ensures ListOk(hash, newList) && |newList| == newLength && count == Total(newList) == Total(list)
    ensures Linked(newHeads, links, newList)
    ensures forall s :: Holds(newList, s) <==> Holds(list, s)
  {
    hide BucketOk, ListOk, Linked, Left, Apart, Moved, Holds, LinkAt, Passed;
    newHeads, links, count := seq(newLength, _ => None), oldLinks, 0;
    newList := seq(newLength, _ => []);
    NothingMoved(hash, heads, oldLinks, list, newHeads, newList);
    assert list[..0] == [];
    for i := 0 to |heads|
      invariant ListOk(hash, newList) && |newList| == newLength && Moved(list, i, 0, newList)
      invariant Linked(newHeads, links, newList) && Left(links, list, i, 0)
      invariant count == Total(newList) == Total(list[..i])
    {
      ghost var bucket, j := list[i], 0;
      var at := heads[i];
      while at.Some?
        invariant j <= |bucket| && at == IdAt(bucket, j)
        invariant ListOk(hash, newList) && |newList| == newLength && Moved(list, i, j, newList)
        invariant Linked(newHeads, links, newList) && Left(links, list, i, j)
        invariant count == Total(newList) == Total(list[..i]) + j
        decreases |bucket| - j
      {
        HeldLink(hash, list, links, i, j);
        HeadsMatch(newHeads, links, newList);
        var h := links[at.value];
        var t := h.slot.hash % newLength;
        PushIs(hash, list, i, j, newList);
        LinkMoved(list, i, j, newHeads, links, newList, t);
        links := links[at.value := h.(next := newHeads[t])];
        newHeads := newHeads[t := at];
        newList := newList[t := [h.slot] + newList[t]];
        at, j, count := h.next, j + 1, count + 1;
      }
      NextBucket(links, list, i, newList);
      assert list[..i + 1][..i] == list[..i];
    }
    assert list[..|list|] == list;
    AllMoved(list, newList);
  }

  lemma NothingMoved(hash: Hash, heads: seq<Option<nat>>, links: map<nat, Link>, list: seq<seq<Slot>>,
                     newHeads: seq<Option<nat>>, newList: seq<seq<Slot>>)
    requires Linked(heads, links, list) && |newHeads| == |newList| > 0
    requires forall i :: 0 <= i < |newList| ==> newList[i] == []
    requires forall i :: 0 <= i < |newHeads| ==> newHeads[i].None?
    ensures ListOk(hash, newList) && Total(newList) == 0 && Moved(list, 0, 0, newList)
    ensures Linked(newHeads, links, newList) && Left(links, list, 0, 0)
    ensures |heads| == |list| && forall i :: 0 <= i < |list| ==> heads[i] == IdAt(list[i], 0)
  {
    EmptyOk(hash, newList);
    hide BucketOk, ListOk;
  }

  lemma AllMoved(list: seq<seq<Slot>>, newList: seq<seq<Slot>>)
    requires Moved(list, |list|, 0, newList)
    ensures forall s :: Holds(newList, s) <==> Holds(list, s)
  {
  }

  lemma HeldLink(hash: Hash, list: seq<seq<Slot>>, links: map<nat, Link>, i: nat, j: nat)
    requires Left(links, list, i, j) && i < |list| && j < |list[i]|
    ensures list[i][j].id in links && links[list[i][j].id] == Link(list[i][j], IdAt(list[i], j + 1))
  {
    assert LinkAt(links, list[i], j);
  }

  lemma LookupBounds(hash: Hash, list: seq<seq<Slot>>)
    requires ListOk(hash, list)
    ensures |list| > 0
  {
  }

  lemma LookupIs(hash: Hash, list: seq<seq<Slot>>, m: map<Bytes, nat>, key: Bytes, k: nat)
    requires ListOk(hash, list) && Represents(list, m, hash) && k == Find(list[hash(key) % |list|], key, hash(key), 0)
    ensures var bucket := list[hash(key) % |list|];
            && (k < |bucket| <==> key in m) && (k < |bucket| ==> m[key] == bucket[k].id)
  {
    var bucket := list[hash(key) % |list|];
    if k < |bucket| {
      assert Holds(list, bucket[k]);
    }
    if key in m {
      var s := Slot(key, hash(key), m[key]);
      assert Holds(list, s);
      HeldInBucket(hash, list, s);
    }
  }

  /** Replacing or appending a slot. */
  lemma InsertIs(hash: Hash, list: seq<seq<Slot>>, m: map<Bytes, nat>, slot: Slot, k: nat)
    requires ListOk(hash, list) && Represents(list, m, hash) && slot.hash == hash(slot.key)
    requires k == Find(list[slot.hash % |list|], slot.key, slot.hash, 0)
    ensures var i := slot.hash % |list|;
            var bucket := if k < |list[i]| then list[i][k := slot] else list[i] + [slot];
            ListOk(hash, list[i := bucket]) && Represents(list[i := bucket], m[slot.key := slot.id], hash)
  {
    var i := slot.hash % |list|;
    var bucket := if k < |list[i]| then list[i][k := slot] else list[i] + [slot];
    var list' := list[i := bucket];
    assert BucketOk(hash, list[i], |list|, i);
    assert BucketOk(hash, bucket, |list|, i);
    assert ListOk(hash, list');
    forall s
      ensures Holds(list', s)
         <==> s.hash == hash(s.key) && s.key in m[slot.key := slot.id] && m[slot.key := slot.id][s.key] == s.id
    {
      HeldInBucket(hash, list, s);
      HeldInBucket(hash, list', s);
      InBucket(list[i], slot, k, bucket, s);
    }
  }

  lemma InBucket(bucket: seq<Slot>, slot: Slot, k: nat, bucket': seq<Slot>, s: Slot)
    requires k <= |bucket| && bucket' == (if k < |bucket| then bucket[k := slot] else bucket + [slot])
    requires (k < |bucket| ==> bucket[k].key == slot.key)
    requires (forall j :: 0 <= j < |bucket| && j != k ==> bucket[j].key != slot.key)
    ensures s in bucket' <==> s == slot || (s in bucket && s.key != slot.key)
  {
    if s == slot {
      assert bucket'[k] == s;
    }
    if s in bucket && s.key != slot.key {
      var j :| 0 <= j < |bucket| && bucket[j] == s;
      assert bucket'[j] == s;
    }
  }

  lemma RemoveIs(hash: Hash, list: seq<seq<Slot>>, m: map<Bytes, nat>, key: Bytes, k: nat)
    requires ListOk(hash, list) && Represents(list, m, hash)
    requires k == Find(list[hash(key) % |list|], key, hash(key), 0) && k < |list[hash(key) % |list|]|
    ensures var i := hash(key) % |list|;
            var bucket := list[i][..k] + list[i][k + 1..];
            ListOk(hash, list[i := bucket]) && Represents(list[i := bucket], m - {key}, hash)
  {
    var i := hash(key) % |list|;
    var bucket := list[i][..k] + list[i][k + 1..];
    assert BucketOk(hash, list[i], |list|, i);
    BucketWithout(hash, list[i], |list|, i, k);
    assert forall j :: 0 <= j < |list[i]| && j != k ==> list[i][j].key != list[i][k].key;
    forall s
      ensures s in bucket <==> s in list[i] && s.key != key
    {
      OutOfBucket(list[i], k, bucket, s);
    }
    hide ListOk, BucketOk, Represents, Find;
    WithBucket(hash, list, m, key, bucket);
  }

  /** A bucket without the key's slot represents the map without the key. */
  lemma WithBucket(hash: Hash, list: seq<seq<Slot>>, m: map<Bytes, nat>, key: Bytes, bucket: seq<Slot>)
    requires ListOk(hash, list) && Represents(list, m, hash) && BucketOk(hash, bucket, |list|, hash(key) % |list|)
    requires forall s :: s in bucket <==> s in list[hash(key) % |list|] && s.key != key
    ensures var list' := list[hash(key) % |list| := bucket]; ListOk(hash, list') && Represents(list', m - {key}, hash)
  {
    var list' := list[hash(key) % |list| := bucket];
    assert ListOk(hash, list') by {
      hide BucketOk;
    }
    hide ListOk, BucketOk;
    forall s
      ensures Holds(list', s) <==> s.hash == hash(s.key) && s.key in m - {key} && m[s.key] == s.id
    {
      HeldInBucket(hash, list, s);
      HeldInBucket(hash, list', s);
    }
  }

  lemma BucketWithout(hash: Hash, bucket: seq<Slot>, length: nat, i: nat, k: nat)
    requires length > 0 && BucketOk(hash, bucket, length, i) && k < |bucket|
    ensures BucketOk(hash, bucket[..k] + bucket[k + 1..], length, i)
  {
    var bucket' := bucket[..k] + bucket[k + 1..];
    forall a | 0 <= a < |bucket'|
      ensures bucket'[a] == bucket[if a < k then a else a + 1]
    {
    }
  }

  lemma OutOfBucket(bucket: seq<Slot>, k: nat, bucket': seq<Slot>, s: Slot)
    requires k < |bucket| && bucket' == bucket[..k] + bucket[k + 1..]
    requires forall j :: 0 <= j < |bucket| && j != k ==> bucket[j].key != bucket[k].key
    ensures s in bucket' <==> s in bucket && s.key != bucket[k].key
  {
    if s in bucket && s.key != bucket[k].key {
      var j :| 0 <= j < |bucket| && bucket[j] == s;
      assert bucket'[if j < k then j else j - 1] == s;
    }
  }
}
