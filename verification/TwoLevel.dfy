/**
 The two-level iterator: an index of blocks, and a cursor that runs over the blocks as if they
 were one sequence, whatever blocks are empty.
 */
module TwoLevel {
  import opened Keys
  import opened Versions

  datatype IndexEntry = IndexEntry(key: IKey, handle: Bytes)

  /** The cursor over one block; position -1 is not valid. */
  datatype DataIter = DataIter(handle: Bytes, pos: int)

  function Blocks(index: seq<IndexEntry>, fetch: Bytes -> seq<Entry>): (bs: seq<seq<Entry>>)
    ensures |bs| == |index| && forall i :: 0 <= i < |index| ==> bs[i] == fetch(index[i].handle)
  {
    seq(|index|, i requires 0 <= i < |index| => fetch(index[i].handle))
  }

  /** The blocks up to `n` as one sequence. */
  function Flat(bs: seq<seq<Entry>>, n: nat): seq<Entry>
    requires n <= |bs|
  {
    if n == 0 then [] else Flat(bs, n - 1) + bs[n - 1]
  }

  function Start(bs: seq<seq<Entry>>, n: nat): nat
    requires n <= |bs|
  {
    |Flat(bs, n)|
  }

  lemma {:induction false} FlatPrefix(bs: seq<seq<Entry>>, m: nat, n: nat)
    requires m <= n <= |bs|
    ensures Flat(bs, m) <= Flat(bs, n)
    decreases n
  {
    if m < n {
      FlatPrefix(bs, m, n - 1);
    }
  }

  /** Block `i` lies in the whole at its start. */
  lemma BlockInFlat(bs: seq<seq<Entry>>, i: nat)
    requires i < |bs|
    ensures Start(bs, i + 1) == Start(bs, i) + |bs[i]| <= Start(bs, |bs|)
    ensures forall j :: 0 <= j < |bs[i]| ==> Flat(bs, |bs|)[Start(bs, i) + j] == bs[i][j]
  {
    FlatPrefix(bs, i + 1, |bs|);
    var up := Flat(bs, i + 1);
    assert forall j :: 0 <= j < |bs[i]| ==> up[Start(bs, i) + j] == bs[i][j];
  }

  /** Exactly the first `g` entries are below `target`. */
  ghost predicate Divides(es: seq<Entry>, g: nat, target: IKey) {
    g <= |es| && (forall k :: 0 <= k < g ==> Less(es[k].key, target)) &&
    (forall k :: g <= k < |es| ==> AtMost(target, es[k].key))
  }

  /** Index keys separate the blocks: at or after everything in their block, before everything later. */
  ghost predicate Separated(index: seq<IndexEntry>, bs: seq<seq<Entry>>)
    requires |bs| == |index|
  {
    && (forall i, j :: 0 <= i < |bs| && 0 <= j < |bs[i]| ==> AtMost(bs[i][j].key, index[i].key))
    && (forall i, k, j :: 0 <= i < k < |bs| && 0 <= j < |bs[k]| ==> Less(index[i].key, bs[k][j].key))
    && (forall i :: 0 <= i < |bs| ==> Sorted(bs[i]))
    && (forall i, k :: 0 <= i < k < |index| ==> Less(index[i].key, index[k].key))
  }

  /** The first index entry at or after the target. */
  function IndexSeek(index: seq<IndexEntry>, target: IKey, from: nat): (i: nat)
    requires from <= |index|
    ensures from <= i <= |index| && (forall k :: from <= k < i ==> Less(index[k].key, target))
    ensures i < |index| ==> AtMost(target, index[i].key)
    decreases |index| - from
  {
    if from == |index| || !Less(index[from].key, target) then from else IndexSeek(index, target, from + 1)
  }

  /** The block and the place in it of an entry of the whole. */
  lemma {:induction false} Locate(bs: seq<seq<Entry>>, n: nat, k: nat) returns (b: nat, j: nat)
    requires n <= |bs| && k < Start(bs, n)
    ensures b < n && j < |bs[b]| && k == Start(bs, b) + j
    decreases n
  {
    if k < Start(bs, n - 1) {
      b, j := Locate(bs, n - 1, k);
    } else {
      b, j := n - 1, k - Start(bs, n - 1);
    }
  }

  /** Seeking in the index and then in the block finds where the target divides the whole sequence. */
  lemma SeekDivides(index: seq<IndexEntry>, bs: seq<seq<Entry>>, target: IKey)
    requires |bs| == |index| && Separated(index, bs)
    ensures var i := IndexSeek(index, target, 0);
            Divides(Flat(bs, |bs|), if i < |bs| then Start(bs, i) + FirstAtLeast(bs[i], target)
                    else Start(bs, |bs|), target)
  {
    hide Less, Separated, IndexSeek, FirstAtLeast, Flat;
    var flat := Flat(bs, |bs|);
    var i := IndexSeek(index, target, 0);
    if i < |bs| {
      BlockInFlat(bs, i);
    }
    forall k | 0 <= k < |flat|
      ensures Less(flat[k].key, target)
         <==> k < if i < |bs| then Start(bs, i) + FirstAtLeast(bs[i], target) else Start(bs, |bs|)
    {
      Side(index, bs, target, k);
    }
  }

  lemma Side(index: seq<IndexEntry>, bs: seq<seq<Entry>>, target: IKey, k: nat)
    requires |bs| == |index| && Separated(index, bs) && k < |Flat(bs, |bs|)|
    ensures var i := IndexSeek(index, target, 0);
            Less(Flat(bs, |bs|)[k].key, target)
            <==> k < if i < |bs| then Start(bs, i) + FirstAtLeast(bs[i], target) else Start(bs, |bs|)
  {
    hide Less, Separated, IndexSeek, FirstAtLeast, Flat;
    var i := IndexSeek(index, target, 0);
    var b, j := Locate(bs, |bs|, k);
    BlockInFlat(bs, b);
    Sides(index, bs, target, b, j);
    if b < i {
      StartOrder(bs, b + 1, i);
    } else if b > i {
      BlockInFlat(bs, i);
      StartOrder(bs, i + 1, b);
    }
  }

  lemma StartOrder(bs: seq<seq<Entry>>, a: nat, b: nat)
    requires a <= b <= |bs|
    ensures Start(bs, a) <= Start(bs, b)
  {
    FlatPrefix(bs, a, b);
  }

  /** On which side of the target an entry is, by its block. */
  lemma Sides(index: seq<IndexEntry>, bs: seq<seq<Entry>>, target: IKey, b: nat, j: nat)
    requires |bs| == |index| && Separated(index, bs) && b < |bs| && j < |bs[b]|
    ensures var i := IndexSeek(index, target, 0);
            && (b < i ==> Less(bs[b][j].key, target))
            && (b > i ==> AtMost(target, bs[b][j].key))
            && (b == i ==> (Less(bs[b][j].key, target) <==> j < FirstAtLeast(bs[i], target)))
  {
    var i := IndexSeek(index, target, 0);
    if b < i {
      AtMostThenLess(bs[b][j].key, index[b].key, target);
    } else if b > i {
      assert Less(index[i].key, bs[b][j].key);
    } else {
      var f := FirstAtLeast(bs[i], target);
      assert Sorted(bs[i]);
      assert j > f ==> Less(bs[i][f].key, bs[i][j].key);
    }
  }

  class TwoLevelIterator {
    const index: seq<IndexEntry>
    const fetch: Bytes -> seq<Entry>
    var ip: int                   // position in the index; -1 is not valid
    var data: Option<DataIter>

    constructor (index: seq<IndexEntry>, fetch: Bytes -> seq<Entry>)
      ensures this.index == index && this.fetch == fetch && Ok() && data == None
    {
      this.index, this.fetch := index, fetch;
      ip, data := -1, None;
    }

    ghost function Bs(): (bs: seq<seq<Entry>>)
      ensures |bs| == |index| && forall i :: 0 <= i < |index| ==> bs[i] == fetch(index[i].handle)
    {
      Blocks(index, fetch)
    }

    /** A data iterator is over the block the index stands on. */
    ghost predicate Ok()
      reads this
    {
      && -1 <= ip < |index|
      && (data.Some? ==>
            ip >= 0 && data.value.handle == index[ip].handle && -1 <= data.value.pos < |fetch(index[ip].handle)|)
    }

    predicate Valid()
      reads this
    {
      data.Some? && data.value.pos >= 0
    }

    /** The position in the whole sequence. */
    ghost function Position(): nat
      requires Ok() && Valid()
      reads this
    {
      Start(Bs(), ip) + data.value.pos
    }

    ghost function Total(): nat {
      Start(Bs(), |index|)
    }

    /** The cursor is at `p`, or not valid when `p` is no position. */
    ghost predicate Stands(p: int)
      reads this
    {
      Ok() && (Valid() <==> 0 <= p < Total()) && (Valid() ==> Position() == p)
    }

    method InitDataBlock()
      requires -1 <= ip < |index| && (data.Some? ==> -1 <= data.value.pos < |fetch(data.value.handle)|)
      modifies this
      ensures Ok() && ip == old(ip) && (ip >= 0 <==> data.Some?)
    {
      if ip == -1 {
        data := None;
      } else {
        var handle := index[ip].handle;
        if data.None? || data.value.handle != handle {
          data := Some(DataIter(handle, -1));
        }
      }
    }

    /** What comes next is at `goal`: it is under the cursor, or the block is used up and later blocks begin there. */
    ghost predicate Ahead(goal: nat)
      reads this
    {
      && Ok() && goal <= Total()
      && (Valid() ==> Position() == goal)
      && (!Valid() && ip >= 0 ==> Start(Bs(), ip + 1) == goal)
      && (!Valid() && ip == -1 ==> goal == Total())
    }

    method SkipEmptyDataBlocksForward(ghost goal: nat)
      requires Ahead(goal)
      modifies this
      ensures Stands(goal)
    {
      while data.None? || data.value.pos < 0
        invariant Ahead(goal)
        decreases data.Some? || ip >= 0, if ip >= 0 then |index| - ip else 0
      {
        if ip == -1 {
          data := None;
          return;
        }
        BlockInFlat(Bs(), ip);
        ip := if ip + 1 < |index| then ip + 1 else -1;
        InitDataBlock();
        if data.Some? {
          BlockInFlat(Bs(), ip);
          data := Some(data.value.(pos := if |fetch(data.value.handle)| > 0 then 0 else -1));
        }
      }
      BlockInFlat(Bs(), ip);
    }

    /** What comes before is the entry under the cursor, number `goal - 1`, or earlier blocks end at `goal`. */
    ghost predicate Behind(goal: nat)
      reads this
    {
      && Ok() && goal <= Total()
      && (Valid() ==> Position() + 1 == goal)
      && (!Valid() && ip >= 0 ==> Start(Bs(), ip) == goal)
      && (!Valid() && ip == -1 ==> goal == 0)
    }

    method SkipEmptyDataBlocksBackward(ghost goal: nat)
      requires Behind(goal)
      modifies this
      ensures Stands(goal - 1)
    {
      while data.None? || data.value.pos < 0
        invariant Behind(goal)
        decreases data.Some? || ip >= 0, ip + 1
      {
        if ip == -1 {
          data := None;
          return;
        }
        ip := ip - 1;
        InitDataBlock();
        if data.Some? {
          BlockInFlat(Bs(), ip);
          data := Some(data.value.(pos := |fetch(data.value.handle)| - 1));
        }
      }
      BlockInFlat(Bs(), ip);
    }

    method Next()
      requires Ok() && Valid()
      modifies this
      ensures Stands(old(Position()) + 1)
    {
      ghost var p := Position();
      BlockInFlat(Bs(), ip);
      var n := |fetch(data.value.handle)|;
      data := Some(data.value.(pos := if data.value.pos + 1 < n then data.value.pos + 1 else -1));
      SkipEmptyDataBlocksForward(p + 1);
    }

    method Prev()
      requires Ok() && Valid()
      modifies this
      ensures Stands(old(Position()) - 1)
    {
      ghost var p := Position();
      BlockInFlat(Bs(), ip);
      data := Some(data.value.(pos := data.value.pos - 1));
      SkipEmptyDataBlocksBackward(p);
    }

    /** Positions at the first entry at or after the target. */
    method Seek(target: IKey) returns (ghost g: nat)
      requires Ok() && Separated(index, Bs())
      modifies this
      ensures Divides(Flat(Bs(), |index|), g, target) && Stands(g)
    {
      hide Separated, Divides, Flat, IndexSeek, Blocks, FirstAtLeast;
      SeekDivides(index, Bs(), target);
      var i := IndexSeek(index, target, 0);
      g := if i < |index| then Start(Bs(), i) + FirstAtLeast(Bs()[i], target) else Total();
      ip := if i < |index| then i else -1;
      InitDataBlock();
      if data.Some? {
        BlockInFlat(Bs(), i);
        var block := fetch(data.value.handle);
        var j := FirstAtLeast(block, target);
        data := Some(data.value.(pos := if j < |block| then j else -1));
      }
      SkipEmptyDataBlocksForward(g);
    }

    method SeekToFirst()
      requires Ok()
      modifies this
      ensures Stands(0)
    {
      ip := if |index| > 0 then 0 else -1;
      InitDataBlock();
      if data.Some? {
        data := Some(data.value.(pos := if |fetch(data.value.handle)| > 0 then 0 else -1));
        BlockInFlat(Bs(), 0);
      }
      SkipEmptyDataBlocksForward(0);
    }

    method SeekToLast()
      requires Ok()
      modifies this
      ensures Stands(Total() - 1)
    {
      ip := |index| - 1;
      InitDataBlock();
      if data.Some? {
        data := Some(data.value.(pos := |fetch(data.value.handle)| - 1));
        BlockInFlat(Bs(), ip);
      }
      SkipEmptyDataBlocksBackward(Total());
    }
  }
}
