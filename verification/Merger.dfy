/**
 The merging iterator: a cursor over the sorted union of its children, in both directions.
 */
module Merger {
  import opened Keys
  import opened Versions

  /** The first entry at or after `k`; -1 when there is none. */
  ghost predicate From(d: seq<Entry>, p: int, k: IKey)
  {
    if p == -1 then forall j :: 0 <= j < |d| ==> Less(d[j].key, k)
    else 0 <= p < |d| && AtMost(k, d[p].key) && forall j :: 0 <= j < p ==> Less(d[j].key, k)
  }

  /** The first entry after `k`. */
  ghost predicate After(d: seq<Entry>, p: int, k: IKey)
  {
    if p == -1 then forall j :: 0 <= j < |d| ==> AtMost(d[j].key, k)
    else 0 <= p < |d| && Less(k, d[p].key) && forall j :: 0 <= j < p ==> AtMost(d[j].key, k)
  }

  /** The last entry at or before `k`. */
  ghost predicate Upto(d: seq<Entry>, p: int, k: IKey)
  {
    if p == -1 then forall j :: 0 <= j < |d| ==> Less(k, d[j].key)
    else 0 <= p < |d| && AtMost(d[p].key, k) && forall j :: p < j < |d| ==> Less(k, d[j].key)
  }

  /** The last entry before `k`. */
  ghost predicate Before(d: seq<Entry>, p: int, k: IKey)
  {
    if p == -1 then forall j :: 0 <= j < |d| ==> AtMost(k, d[j].key)
    else 0 <= p < |d| && Less(d[p].key, k) && forall j :: p < j < |d| ==> AtMost(k, d[j].key)
  }

  ghost predicate Occurs(children: seq<seq<Entry>>, e: Entry)
  {
    exists i :: 0 <= i < |children| && e in children[i]
  }

  /** Each child ascends, and no key occurs in two children. */
  ghost predicate ChildrenOk(children: seq<seq<Entry>>)
  {
    && (forall i :: 0 <= i < |children| ==> Sorted(children[i]))
    && forall i, j, a, b :: 0 <= i < j < |children| && a in children[i] && b in children[j] ==> a.key != b.key
  }

  /** `e` is the first entry of the union that `k` is strictly below. */
  ghost predicate NextInUnion(children: seq<seq<Entry>>, k: IKey, e: Entry)
  {
    Occurs(children, e) && Less(k, e.key) && forall o :: Occurs(children, o) && Less(k, o.key) ==> AtMost(e.key, o.key)
  }

  /** `e` is the last entry of the union strictly below `k`. */
  ghost predicate PrevInUnion(children: seq<seq<Entry>>, k: IKey, e: Entry)
  {
    Occurs(children, e) && Less(e.key, k) && forall o :: Occurs(children, o) && Less(o.key, k) ==> AtMost(o.key, e.key)
  }

  /** The position after `p`, or -1. */
  function StepNext(d: seq<Entry>, p: int): int
  {
    if p + 1 < |d| then p + 1 else -1
  }

  function SeekTo(d: seq<Entry>, k: IKey): (p: int)
    ensures From(d, p, k)
  {
    var i := FirstAtLeast(d, k);
    if i < |d| then i else -1
  }

  lemma StepPastKey(d: seq<Entry>, p: int, k: IKey)
    requires Sorted(d) && 0 <= p < |d| && d[p].key == k
    ensures After(d, StepNext(d, p), k) && Before(d, p - 1, k) && From(d, p, k) && Upto(d, p, k)
  {
  }

  /** A child without the key stands after it as soon as it stands at or after it. */
  lemma FromIsAfter(d: seq<Entry>, p: int, k: IKey)
    requires From(d, p, k) && forall e :: e in d ==> e.key != k
    ensures After(d, p, k)
  {
    if p != -1 {
      assert d[p] in d;
    }
  }

  lemma UptoIsBefore(d: seq<Entry>, p: int, k: IKey)
    requires Upto(d, p, k) && forall e :: e in d ==> e.key != k
    ensures Before(d, p, k)
  {
    if p != -1 {
      assert d[p] in d;
    }
  }

  /** Stepping back from the first entry at or after `k` reaches the last one before it. */
  lemma FromIsNextToBefore(d: seq<Entry>, p: int, k: IKey)
    requires Sorted(d) && From(d, p, k)
    ensures Before(d, (if p == -1 then |d| else p) - 1, k)
  {
  }

  ghost predicate PosOk(children: seq<seq<Entry>>, pos: seq<int>)
  {
    |pos| == |children| && forall i :: 0 <= i < |children| ==> -1 <= pos[i] < |children[i]|
  }

  ghost predicate Around(children: seq<seq<Entry>>, pos: seq<int>, k: IKey)
    requires PosOk(children, pos)
  {
    forall i :: 0 <= i < |children| ==> From(children[i], pos[i], k)
  }

  ghost predicate AroundBack(children: seq<seq<Entry>>, pos: seq<int>, k: IKey)
    requires PosOk(children, pos)
  {
    forall i :: 0 <= i < |children| ==> Upto(children[i], pos[i], k)
  }

  ghost predicate SmallestOf(children: seq<seq<Entry>>, pos: seq<int>, current: int)
    requires PosOk(children, pos)
  {
    && -1 <= current < |children| && (current >= 0 ==> pos[current] >= 0)
    && forall i :: 0 <= i < |children| && pos[i] >= 0 ==>
                     current >= 0 && AtMost(children[current][pos[current]].key, children[i][pos[i]].key)
  }

  ghost predicate LargestOf(children: seq<seq<Entry>>, pos: seq<int>, current: int)
    requires PosOk(children, pos)
  {
    && -1 <= current < |children| && (current >= 0 ==> pos[current] >= 0)
    && forall i :: 0 <= i < |children| && pos[i] >= 0 ==>
                     current >= 0 && AtMost(children[i][pos[i]].key, children[current][pos[current]].key)
  }

  /** Positions every child but `cur` after the key of `cur`. */
  method RepositionAfter(children: seq<seq<Entry>>, pos: seq<int>, cur: nat) returns (p: seq<int>)
    requires ChildrenOk(children) && PosOk(children, pos) && cur < |children| && pos[cur] >= 0
    ensures PosOk(children, p) && p[cur] == pos[cur]
    ensures forall j :: 0 <= j < |children| && j != cur ==> After(children[j], p[j], children[cur][pos[cur]].key)
  {
    var k := children[cur][pos[cur]].key;
    p := pos;
    hide ChildrenOk, After, From, SeekAfter, Sorted;
    for i := 0 to |children|
      invariant PosOk(children, p) && p[cur] == pos[cur]
      invariant forall j :: 0 <= j < i && j != cur ==> After(children[j], p[j], k)
    {
      if i != cur {
        ChildSorted(children, i);
        SeekAfterIsAfter(children[i], k);
        p := p[i := SeekAfter(children[i], k)];
      }
    }
  }

  /** Positions every child but `cur` before the key of `cur`. */
  method RepositionBefore(children: seq<seq<Entry>>, pos: seq<int>, cur: nat) returns (p: seq<int>)
    requires ChildrenOk(children) && PosOk(children, pos) && cur < |children| && pos[cur] >= 0
    ensures PosOk(children, p) && p[cur] == pos[cur]
    ensures forall j :: 0 <= j < |children| && j != cur ==> Before(children[j], p[j], children[cur][pos[cur]].key)
  {
    var k := children[cur][pos[cur]].key;
    p := pos;
    hide Before, From, Sorted;
    for i := 0 to |children|
      invariant PosOk(children, p) && p[cur] == pos[cur]
      invariant forall j :: 0 <= j < i && j != cur ==> Before(children[j], p[j], k)
    {
      if i != cur {
        var q := SeekTo(children[i], k);
        SeekInRange(children[i], k);
        FromIsNextToBefore(children[i], q, k);
        p := p[i := if q >= 0 then q - 1 else |children[i]| - 1];
      }
    }
  }

  /** Seeks to `k` and steps past it when the child stands on it. */
  function SeekAfter(d: seq<Entry>, k: IKey): int
  {
    var q := SeekTo(d, k);
    if q >= 0 && d[q].key == k then StepNext(d, q) else q
  }

  lemma SeekAfterIsAfter(d: seq<Entry>, k: IKey)
    requires Sorted(d)
    ensures After(d, SeekAfter(d, k), k) && -1 <= SeekAfter(d, k) < |d|
  {
    var q := SeekTo(d, k);
    if q >= 0 && d[q].key == k {
      StepPastKey(d, q, k);
    }
  }

  lemma SeekInRange(d: seq<Entry>, k: IKey)
    ensures -1 <= SeekTo(d, k) < |d|
  {
  }

  datatype Direction = Forward | Reverse

  class MergingIterator {
    const children: seq<seq<Entry>>
    var pos: seq<int>
    var current: int      // index of the current child, -1 when not valid
    var direction: Direction

    constructor (children: seq<seq<Entry>>)
      requires ChildrenOk(children)
      ensures this.children == children && Valid() && current == -1
    {
      this.children := children;
      pos := seq(|children|, i => -1);
      current := -1;
      direction := Forward;
    }

    /** The children stand around the current key as the direction requires. */
    ghost predicate Valid()
      reads this
    {
      && ChildrenOk(children) && PosOk(children, pos) && -1 <= current < |children|
      && (current >= 0 ==> pos[current] >= 0)
      && (current >= 0 && direction.Forward? ==> Around(children, pos, children[current][pos[current]].key))
      && (current >= 0 && direction.Reverse? ==> AroundBack(children, pos, children[current][pos[current]].key))
    }

    ghost function Entry(): Entry
      requires Valid() && current >= 0
      reads this
    {
      children[current][pos[current]]
    }

    /** Makes the child with the smallest key current. */
    method FindSmallest()
      requires PosOk(children, pos)
      modifies `current
      ensures SmallestOf(children, pos, current)
    {
      var smallest := -1;
      for i := 0 to |children|
        invariant -1 <= smallest < |children|
        invariant smallest >= 0 ==> pos[smallest] >= 0
        invariant forall j :: 0 <= j < i && pos[j] >= 0 ==>
                                smallest >= 0 && AtMost(children[smallest][pos[smallest]].key, children[j][pos[j]].key)
      {
        if pos[i] >= 0 && (smallest == -1 || Less(children[i][pos[i]].key, children[smallest][pos[smallest]].key)) {
          smallest := i;
        }
      }
      current := smallest;
    }

    /** Makes the child with the largest key current. */
    method FindLargest()
      requires PosOk(children, pos)
      modifies `current
      ensures LargestOf(children, pos, current)
    {
      var largest := -1;
      var i := |children|;
      while i > 0
        invariant 0 <= i <= |children| && -1 <= largest < |children|
        invariant largest >= 0 ==> pos[largest] >= 0
        invariant forall j :: i <= j < |children| && pos[j] >= 0 ==>
                                largest >= 0 && AtMost(children[j][pos[j]].key, children[largest][pos[largest]].key)
      {
        i := i - 1;
        if pos[i] >= 0 && (largest == -1 || Less(children[largest][pos[largest]].key, children[i][pos[i]].key)) {
          largest := i;
        }
      }
      current := largest;
    }

    /** Moves to the next entry of the union. */
    method Next()
      requires Valid() && current >= 0
      modifies this
      ensures Valid() && direction.Forward?
      ensures current >= 0 ==> NextInUnion(children, old(Entry()).key, Entry())
      ensures current == -1 ==> forall o :: Occurs(children, o) ==> AtMost(o.key, old(Entry()).key)
    {
      hide ChildrenOk, From, After, Sorted, NextInUnion, Less, Occurs;
      ghost var k := Entry().key;
      if direction.Reverse? {
        pos := RepositionAfter(children, pos, current);
        direction := Forward;
      } else {
        forall i | 0 <= i < |children| && i != current
          ensures After(children[i], pos[i], k)
        {
          KeyElsewhere(children, current, pos[current], i);
          FromIsAfter(children[i], pos[i], k);
        }
      }
      ChildSorted(children, current);
      StepPastKey(children[current], pos[current], k);
      pos := pos[current := StepNext(children[current], pos[current])];
      FindSmallest();
      AllAfter(children, pos, current, k);
    }

    /** Moves to the previous entry of the union. */
    method Prev()
      requires Valid() && current >= 0
      modifies this
      ensures Valid() && direction.Reverse?
      ensures current >= 0 ==> PrevInUnion(children, old(Entry()).key, Entry())
      ensures current == -1 ==> forall o :: Occurs(children, o) ==> AtMost(old(Entry()).key, o.key)
    {
      hide ChildrenOk, Upto, Before, Sorted, PrevInUnion, Less, Occurs;
      ghost var k := Entry().key;
      if direction.Forward? {
        pos := RepositionBefore(children, pos, current);
        direction := Reverse;
      } else {
        forall i | 0 <= i < |children| && i != current
          ensures Before(children[i], pos[i], k)
        {
          KeyElsewhere(children, current, pos[current], i);
          UptoIsBefore(children[i], pos[i], k);
        }
      }
      ChildSorted(children, current);
      StepPastKey(children[current], pos[current], k);
      pos := pos[current := pos[current] - 1];
      FindLargest();
      AllBefore(children, pos, current, k);
    }

    method Seek(target: IKey)
      requires Valid()
      modifies this
      ensures Valid() && direction.Forward?
      ensures current >= 0 ==> AtMost(target, Entry().key) && Occurs(children, Entry())
      ensures forall o :: Occurs(children, o) && AtMost(target, o.key) ==> current >= 0 && AtMost(Entry().key, o.key)
    {
      var p := pos;
      for i := 0 to |children|
        invariant PosOk(children, p)
        invariant forall j :: 0 <= j < i ==> From(children[j], p[j], target)
      {
        SeekInRange(children[i], target);
        p := p[i := SeekTo(children[i], target)];
      }
      pos := p;
      FindSmallest();
      direction := Forward;
      AllFrom(children, pos, current, target);
    }

    method SeekToFirst()
      requires Valid()
      modifies this
      ensures Valid() && direction.Forward?
      ensures current >= 0 ==> Occurs(children, Entry())
      ensures forall o :: Occurs(children, o) ==> current >= 0 && AtMost(Entry().key, o.key)
    {
      var p := pos;
      for i := 0 to |children|
        invariant PosOk(children, p)
        invariant forall j :: 0 <= j < i ==> p[j] == if children[j] == [] then -1 else 0
      {
        p := p[i := if children[i] == [] then -1 else 0];
      }
      pos := p;
      FindSmallest();
      direction := Forward;
      AllFirst(children, pos, current);
    }

    method SeekToLast()
      requires Valid()
      modifies this
      ensures Valid() && direction.Reverse?
      ensures current >= 0 ==> Occurs(children, Entry())
      ensures forall o :: Occurs(children, o) ==> current >= 0 && AtMost(o.key, Entry().key)
    {
      var p := pos;
      for i := 0 to |children|
        invariant PosOk(children, p)
        invariant forall j :: 0 <= j < i ==> p[j] == |children[j]| - 1
      {
        p := p[i := |children[i]| - 1];
      }
      pos := p;
      FindLargest();
      direction := Reverse;
      AllLast(children, pos, current);
    }
  }

  /** The current key occurs in no other child. */
  lemma KeyElsewhere(children: seq<seq<Entry>>, cur: nat, p: nat, i: nat)
    requires ChildrenOk(children) && cur < |children| && p < |children[cur]| && i < |children| && i != cur
    ensures forall e :: e in children[i] ==> e.key != children[cur][p].key
  {
    assert children[cur][p] in children[cur];
  }

  lemma ChildSorted(children: seq<seq<Entry>>, i: nat)
    requires ChildrenOk(children) && i < |children|
    ensures Sorted(children[i])
  {
  }

  /** A child standing after `k` stands at the first of its entries beyond it. */
  lemma AfterCovers(d: seq<Entry>, p: int, k: IKey, o: Entry)
    requires Sorted(d) && After(d, p, k) && o in d && Less(k, o.key)
    ensures p >= 0 && AtMost(d[p].key, o.key)
  {
    var j :| 0 <= j < |d| && d[j] == o;
    assert d[j].key == o.key;
    if 0 <= p < j {
      assert Less(d[p].key, d[j].key);
    }
  }

  lemma BeforeCovers(d: seq<Entry>, p: int, k: IKey, o: Entry)
    requires Sorted(d) && Before(d, p, k) && o in d && Less(o.key, k)
    ensures p >= 0 && AtMost(o.key, d[p].key)
  {
    var j :| 0 <= j < |d| && d[j] == o;
    assert d[j].key == o.key;
    if j < p {
      assert Less(d[j].key, d[p].key);
    }
  }

  lemma FromCovers(d: seq<Entry>, p: int, k: IKey, o: Entry)
    requires Sorted(d) && From(d, p, k) && o in d && AtMost(k, o.key)
    ensures p >= 0 && AtMost(d[p].key, o.key)
  {
    var j :| 0 <= j < |d| && d[j] == o;
    assert d[j].key == o.key;
    if 0 <= p < j {
      assert Less(d[p].key, d[j].key);
    }
  }

  lemma AfterIsFrom(d: seq<Entry>, p: int, k: IKey, m: IKey)
    requires After(d, p, k) && Less(k, m) && (p >= 0 ==> AtMost(m, d[p].key))
    ensures From(d, p, m)
  {
  }

  lemma BeforeIsUpto(d: seq<Entry>, p: int, k: IKey, m: IKey)
    requires Before(d, p, k) && Less(m, k) && (p >= 0 ==> AtMost(d[p].key, m))
    ensures Upto(d, p, m)
  {
  }

  lemma FromIsFrom(d: seq<Entry>, p: int, k: IKey, m: IKey)
    requires From(d, p, k) && AtMost(k, m) && (p >= 0 ==> AtMost(m, d[p].key))
    ensures From(d, p, m)
  {
  }

  /** All children stand after `k`: the smallest is the next of the union, and all stand around it. */
  lemma AllAfter(children: seq<seq<Entry>>, pos: seq<int>, current: int, k: IKey)
    requires ChildrenOk(children) && PosOk(children, pos) && SmallestOf(children, pos, current)
    requires forall i :: 0 <= i < |children| ==> After(children[i], pos[i], k)
    ensures current >= 0 ==> NextInUnion(children, k, children[current][pos[current]])
    ensures current >= 0 ==> Around(children, pos, children[current][pos[current]].key)
    ensures current == -1 ==> forall o :: Occurs(children, o) ==> AtMost(o.key, k)
  {
    hide ChildrenOk, Sorted, From, Less;
    forall o | Occurs(children, o) && Less(k, o.key)
      ensures current >= 0 && AtMost(children[current][pos[current]].key, o.key)
    {
      var i :| 0 <= i < |children| && o in children[i];
      ChildSorted(children, i);
      AfterCovers(children[i], pos[i], k, o);
      AtMostTrans(children[current][pos[current]].key, children[i][pos[i]].key, o.key);
    }
    if current >= 0 {
      var e := children[current][pos[current]];
      assert e in children[current] && After(children[current], pos[current], k);
      forall i | 0 <= i < |children|
        ensures From(children[i], pos[i], e.key)
      {
        AfterIsFrom(children[i], pos[i], k, e.key);
      }
    }
  }

  lemma AllBefore(children: seq<seq<Entry>>, pos: seq<int>, current: int, k: IKey)
    requires ChildrenOk(children) && PosOk(children, pos) && LargestOf(children, pos, current)
    requires forall i :: 0 <= i < |children| ==> Before(children[i], pos[i], k)
    ensures current >= 0 ==> PrevInUnion(children, k, children[current][pos[current]])
    ensures current >= 0 ==> AroundBack(children, pos, children[current][pos[current]].key)
    ensures current == -1 ==> forall o :: Occurs(children, o) ==> AtMost(k, o.key)
  {
    hide ChildrenOk, Sorted, Upto, Less;
    forall o | Occurs(children, o) && Less(o.key, k)
      ensures current >= 0 && AtMost(o.key, children[current][pos[current]].key)
    {
      var i :| 0 <= i < |children| && o in children[i];
      ChildSorted(children, i);
      BeforeCovers(children[i], pos[i], k, o);
      AtMostTrans(o.key, children[i][pos[i]].key, children[current][pos[current]].key);
    }
    if current >= 0 {
      var e := children[current][pos[current]];
      assert e in children[current] && Before(children[current], pos[current], k);
      forall i | 0 <= i < |children|
        ensures Upto(children[i], pos[i], e.key)
      {
        BeforeIsUpto(children[i], pos[i], k, e.key);
      }
    }
  }

  lemma AllFrom(children: seq<seq<Entry>>, pos: seq<int>, current: int, k: IKey)
    requires ChildrenOk(children) && PosOk(children, pos) && SmallestOf(children, pos, current)
    requires forall i :: 0 <= i < |children| ==> From(children[i], pos[i], k)
    ensures current >= 0 ==> AtMost(k, children[current][pos[current]].key)
    ensures current >= 0 ==> Occurs(children, children[current][pos[current]])
    ensures current >= 0 ==> Around(children, pos, children[current][pos[current]].key)
    ensures forall o :: Occurs(children, o) && AtMost(k, o.key) ==>
                          current >= 0 && AtMost(children[current][pos[current]].key, o.key)
  {
    hide ChildrenOk, Sorted, Less;
    forall o | Occurs(children, o) && AtMost(k, o.key)
      ensures current >= 0 && AtMost(children[current][pos[current]].key, o.key)
    {
      var i :| 0 <= i < |children| && o in children[i];
      ChildSorted(children, i);
      FromCovers(children[i], pos[i], k, o);
      AtMostTrans(children[current][pos[current]].key, children[i][pos[i]].key, o.key);
    }
    if current >= 0 {
      var e := children[current][pos[current]];
      assert e in children[current] && From(children[current], pos[current], k);
      hide From;
      forall i | 0 <= i < |children|
        ensures From(children[i], pos[i], e.key)
      {
        FromIsFrom(children[i], pos[i], k, e.key);
      }
    }
  }

  lemma FirstCovers(d: seq<Entry>, o: Entry)
    requires Sorted(d) && o in d
    ensures AtMost(d[0].key, o.key) && AtMost(o.key, d[|d| - 1].key)
  {
    var j :| 0 <= j < |d| && d[j] == o;
    if 0 < j {
      assert Less(d[0].key, d[j].key);
    }
    if j < |d| - 1 {
      assert Less(d[j].key, d[|d| - 1].key);
    }
  }

  lemma AllFirst(children: seq<seq<Entry>>, pos: seq<int>, current: int)
    requires ChildrenOk(children) && PosOk(children, pos) && SmallestOf(children, pos, current)
    requires forall i :: 0 <= i < |children| ==> pos[i] == if children[i] == [] then -1 else 0
    ensures current >= 0 ==> Occurs(children, children[current][pos[current]])
    ensures current >= 0 ==> Around(children, pos, children[current][pos[current]].key)
    ensures forall o :: Occurs(children, o) ==> current >= 0 && AtMost(children[current][pos[current]].key, o.key)
  {
    hide ChildrenOk, Sorted, Less;
    forall o | Occurs(children, o)
      ensures current >= 0 && AtMost(children[current][pos[current]].key, o.key)
    {
      var i :| 0 <= i < |children| && o in children[i];
      ChildSorted(children, i);
      FirstCovers(children[i], o);
      AtMostTrans(children[current][pos[current]].key, children[i][pos[i]].key, o.key);
    }
    if current >= 0 {
      assert children[current][pos[current]] in children[current];
    }
  }

  lemma AllLast(children: seq<seq<Entry>>, pos: seq<int>, current: int)
    requires ChildrenOk(children) && PosOk(children, pos) && LargestOf(children, pos, current)
    requires forall i :: 0 <= i < |children| ==> pos[i] == |children[i]| - 1
    ensures current >= 0 ==> Occurs(children, children[current][pos[current]])
    ensures current >= 0 ==> AroundBack(children, pos, children[current][pos[current]].key)
    ensures forall o :: Occurs(children, o) ==> current >= 0 && AtMost(o.key, children[current][pos[current]].key)
  {
    hide ChildrenOk, Sorted, Less;
    forall o | Occurs(children, o)
      ensures current >= 0 && AtMost(o.key, children[current][pos[current]].key)
    {
      var i :| 0 <= i < |children| && o in children[i];
      ChildSorted(children, i);
      FirstCovers(children[i], o);
      AtMostTrans(o.key, children[i][pos[i]].key, children[current][pos[current]].key);
    }
    if current >= 0 {
      assert children[current][pos[current]] in children[current];
    }
  }

  lemma AtMostTrans(a: IKey, b: IKey, c: IKey)
    requires AtMost(a, b) && AtMost(b, c)
    ensures AtMost(a, c)
  {
  }

  lemma SortedIndex(d: seq<Entry>, i: nat, j: nat)
    requires Sorted(d) && i < |d| && j < |d|
    ensures Less(d[i].key, d[j].key) <==> i < j
  {
    if j < i {
      assert Less(d[j].key, d[i].key);
    }
  }

  /** Along the sorted union, next and previous are the neighbours. */
  lemma UnionNeighbours(children: seq<seq<Entry>>, union: seq<Entry>, i: nat, e: Entry)
    requires Sorted(union) && (forall o :: o in union <==> Occurs(children, o)) && i < |union|
    ensures NextInUnion(children, union[i].key, e) ==> i + 1 < |union| && e == union[i + 1]
    ensures PrevInUnion(children, union[i].key, e) ==> i > 0 && e == union[i - 1]
    ensures (forall o :: Occurs(children, o) ==> AtMost(o.key, union[i].key)) ==> i == |union| - 1
    ensures (forall o :: Occurs(children, o) ==> AtMost(union[i].key, o.key)) ==> i == 0
  {
    hide Sorted, Less, Occurs;
    if i + 1 < |union| {
      SortedIndex(union, i, i + 1);
      assert union[i + 1] in union;
    }
    if i > 0 {
      SortedIndex(union, i - 1, i);
      assert union[i - 1] in union;
    }
    if e in union {
      var j :| 0 <= j < |union| && union[j] == e;
      SortedIndex(union, i, j);
      SortedIndex(union, j, i);
      if i + 1 < |union| {
        SortedIndex(union, i + 1, j);
      }
      if i > 0 {
        SortedIndex(union, j, i - 1);
      }
    }
  }
}
