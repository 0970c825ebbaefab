/**
 The memtable's skip list. Nodes live in an arena that only grows, so a pointer is an index into
 it, and every store an insertion makes is one step that a concurrent reader may see.
 */
module SkipList {
  import opened Keys

  const MAX_HEIGHT: nat := 12

  datatype Pointer = Null | To(node: nat)

  /** A node of height `|next|`. */
  datatype Node = Node(key: IKey, next: seq<Pointer>)

  /** The arena and the height in use; node 0 is the head. */
  datatype List = List(nodes: seq<Node>, maxHeight: nat)

  /** What a search is for: the first node not below a key, or the end of the list. */
  datatype Bound = Key(key: IKey) | Infinite

  predicate Below(l: List, bound: Bound, n: nat)
    requires n < |l.nodes|
  {
    bound.Infinite? || Less(l.nodes[n].key, bound.key)
  }

  // One level as a sequence of nodes

  /** The node reached after `k` links from the head. */
  function At(c: seq<nat>, k: nat): nat
    requires k <= |c|
  {
    if k == 0 then 0 else c[k - 1]
  }

  function NextOf(c: seq<nat>, k: nat): Pointer
    requires k <= |c|
  {
    if k < |c| then To(c[k]) else Null
  }

  ghost predicate Members(l: List, i: nat, c: seq<nat>) {
    |l.nodes| > 0 && |l.nodes[0].next| > i &&
    forall k :: 0 <= k < |c| ==> 0 < c[k] < |l.nodes| && |l.nodes[c[k]].next| > i
  }

  ghost predicate Linked(l: List, i: nat, c: seq<nat>)
    requires Members(l, i, c)
  {
    forall k :: 0 <= k <= |c| ==> l.nodes[At(c, k)].next[i] == NextOf(c, k)
  }

  ghost predicate Ascends(l: List, c: seq<nat>)
    requires forall k :: 0 <= k < |c| ==> c[k] < |l.nodes|
  {
    forall a, b :: 0 <= a < b < |c| ==> Less(l.nodes[c[a]].key, l.nodes[c[b]].key)
  }

  /** Following level `i` from the head visits exactly `c`, in ascending order, and then ends. */
  ghost predicate Level(l: List, i: nat, c: seq<nat>) {
    Members(l, i, c) && Linked(l, i, c) && Ascends(l, c)
  }

  ghost predicate Sublist(upper: seq<nat>, lower: seq<nat>) {
    forall k :: 0 <= k < |upper| ==> upper[k] in lower
  }

  /** Every level is ascending and a sublist of the level below it, and the levels not in use are empty. */
  ghost predicate WellFormed(l: List, cs: seq<seq<nat>>) {
    && |cs| == MAX_HEIGHT && 1 <= l.maxHeight <= MAX_HEIGHT
    && (forall i :: 0 <= i < MAX_HEIGHT ==> Level(l, i, cs[i]) && (i >= l.maxHeight ==> cs[i] == []))
    && (forall i :: 0 < i < MAX_HEIGHT ==> Sublist(cs[i], cs[i - 1]))
  }

  /** Exactly the first `k` nodes of the level are below the bound. */
  ghost predicate Split(l: List, c: seq<nat>, bound: Bound, k: nat)
    requires forall j :: 0 <= j < |c| ==> c[j] < |l.nodes|
  {
    k <= |c| && forall j :: 0 <= j < |c| ==> (Below(l, bound, c[j]) <==> j < k)
  }

  // A reader, one load at a time

  datatype Reader = Going(node: nat, level: nat) | Done(last: nat, next: Pointer) | Fault

  /** The reader is at the head, or at a node of its level that is below the bound. */
  ghost predicate ReaderOk(l: List, cs: seq<seq<nat>>, bound: Bound, r: Reader)
    requires WellFormed(l, cs)
  {
    r.Going? && r.level < MAX_HEIGHT &&
    (r.node == 0 || (r.node in cs[r.level] && r.node < |l.nodes| && Below(l, bound, r.node)))
  }

  /** Loads one link, and moves right, moves down, or is done. A load through a bad pointer is a fault. */
  function Look(l: List, bound: Bound, r: Reader): Reader
    requires r.Going?
  {
    if r.node >= |l.nodes| || r.level >= |l.nodes[r.node].next| then Fault else
    var n := l.nodes[r.node].next[r.level];
    if n.To? && n.node >= |l.nodes| then Fault
    else if n.To? && Below(l, bound, n.node) then Going(n.node, r.level)
    else if r.level == 0 then Done(r.node, n)
    else Going(r.node, r.level - 1)
  }

  /** The reader's answer is where the bottom level splits: the last node below the bound and the node after it. */
  ghost predicate Answers(m: Moment, bound: Bound, r: Reader, k: nat)
    requires Ok(m)
  {
    && Level(m.list, 0, m.levels[0]) && Split(m.list, m.levels[0], bound, k)
    && r == Done(At(m.levels[0], k), NextOf(m.levels[0], k))
  }

  lemma Place(l: List, cs: seq<seq<nat>>, bound: Bound, r: Reader) returns (k: nat)
    requires WellFormed(l, cs) && ReaderOk(l, cs, bound, r)
    ensures k <= |cs[r.level]| && At(cs[r.level], k) == r.node && r.node < |l.nodes| && r.level < |l.nodes[r.node].next|
    ensures l.nodes[r.node].next[r.level] == NextOf(cs[r.level], k)
    ensures k > 0 ==> Below(l, bound, r.node)
  {
    var c := cs[r.level];
    assert Level(l, r.level, c);
    if r.node == 0 {
      k := 0;
    } else {
      var j :| 0 <= j < |c| && c[j] == r.node;
      k := j + 1;
    }
    assert l.nodes[At(c, k)].next[r.level] == NextOf(c, k);
  }

  /** One load keeps the reader on its level's path, or ends it at the split of the bottom level. */
  lemma LookKeeps(l: List, cs: seq<seq<nat>>, bound: Bound, r: Reader) returns (k: nat)
    requires WellFormed(l, cs) && ReaderOk(l, cs, bound, r)
    ensures var r' := Look(l, bound, r);
            && !r'.Fault? && (r'.Going? ==> ReaderOk(l, cs, bound, r'))
            && (r'.Done? ==> k <= |cs[0]| && Answers(Moment(l, cs), bound, r', k))
  {
    k := Place(l, cs, bound, r);
    var c := cs[r.level];
    assert Level(l, r.level, c) && Level(l, 0, cs[0]);
    var r' := Look(l, bound, r);
    if r'.Done? {
      SplitHere(l, 0, c, bound, k);
    } else if r'.level < r.level {
      assert Sublist(cs[r.level], cs[r.level - 1]);
    }
  }

  lemma SplitHere(l: List, i: nat, c: seq<nat>, bound: Bound, k: nat)
    requires Level(l, i, c) && k <= |c| && (k > 0 ==> Below(l, bound, c[k - 1])) && (k < |c| ==> !Below(l, bound, c[k]))
    ensures Split(l, c, bound, k)
  {
    forall j | 0 <= j < |c|
      ensures Below(l, bound, c[j]) <==> j < k
    {
      if j < k - 1 {
        assert Less(l.nodes[c[j]].key, l.nodes[c[k - 1]].key);
      } else if j > k {
        assert Less(l.nodes[c[k]].key, l.nodes[c[j]].key);
      }
    }
  }

  // The stores of an insertion

  function Raise(l: List, height: nat): List {
    l.(maxHeight := height)
  }

  function Allocate(l: List, key: IKey, height: nat): List {
    l.(nodes := l.nodes + [Node(key, seq(height, _ => Null))])
  }

  function SetNext(l: List, p: nat, i: nat, q: Pointer): List
    requires p < |l.nodes| && i < |l.nodes[p].next|
  {
    l.(nodes := l.nodes[p := l.nodes[p].(next := l.nodes[p].next[i := q])])
  }

  /** One store: a greater height in use, a fresh node, or one link. */
  ghost predicate Store(a: List, b: List) {
    || (exists h: nat :: a.maxHeight < h && b == Raise(a, h))
    || (exists key, h: nat :: b == Allocate(a, key, h))
    || (exists p: nat, i: nat, q :: p < |a.nodes| && i < |a.nodes[p].next| && b == SetNext(a, p, i, q))
  }

  /** A list as it is at one moment, with its levels. */
  datatype Moment = Moment(list: List, levels: seq<seq<nat>>)

  ghost predicate Ok(m: Moment) {
    WellFormed(m.list, m.levels)
  }

  /** Nodes keep their keys, and no level loses a node. */
  ghost predicate Grows(a: Moment, b: Moment) {
    && |a.list.nodes| <= |b.list.nodes| && |a.levels| == |b.levels|
    && (forall n :: 0 <= n < |a.list.nodes| ==> a.list.nodes[n].key == b.list.nodes[n].key)
    && (forall i :: 0 <= i < |a.levels| ==> Sublist(a.levels[i], b.levels[i]))
  }

  lemma ReaderSurvives(a: Moment, b: Moment, bound: Bound, r: Reader)
    requires Ok(a) && Ok(b) && Grows(a, b) && ReaderOk(a.list, a.levels, bound, r)
    ensures ReaderOk(b.list, b.levels, bound, r)
  {
    assert Sublist(a.levels[r.level], b.levels[r.level]);
    assert Level(b.list, r.level, b.levels[r.level]);
  }

  lemma RaiseKeeps(l: List, cs: seq<seq<nat>>, height: nat)
    requires WellFormed(l, cs) && l.maxHeight < height <= MAX_HEIGHT
    ensures WellFormed(Raise(l, height), cs) && Grows(Moment(l, cs), Moment(Raise(l, height), cs))
  {
    forall i | 0 <= i < MAX_HEIGHT
      ensures Level(Raise(l, height), i, cs[i])
    {
      assert Level(l, i, cs[i]);
    }
  }

  lemma AllocateKeeps(l: List, cs: seq<seq<nat>>, key: IKey, height: nat)
    requires WellFormed(l, cs)
    ensures WellFormed(Allocate(l, key, height), cs) && Grows(Moment(l, cs), Moment(Allocate(l, key, height), cs))
  {
    forall i | 0 <= i < MAX_HEIGHT
      ensures Level(Allocate(l, key, height), i, cs[i])
    {
      assert Level(l, i, cs[i]);
      AllocateLevel(l, i, cs[i], key, height);
    }
  }

  lemma AllocateLevel(l: List, i: nat, c: seq<nat>, key: IKey, height: nat)
    requires Level(l, i, c)
    ensures Level(Allocate(l, key, height), i, c)
  {
    var l' := Allocate(l, key, height);
    assert forall n :: 0 <= n < |l.nodes| ==> l'.nodes[n] == l.nodes[n];
    forall k | 0 <= k <= |c|
      ensures l'.nodes[At(c, k)].next[i] == NextOf(c, k)
    {
      assert l.nodes[At(c, k)].next[i] == NextOf(c, k);
    }
  }

  /** A link of another level, or of a node that is not on the level, does not change the level. */
  lemma OtherLevel(l: List, i: nat, c: seq<nat>, p: nat, j: nat, q: Pointer)
    requires Level(l, i, c) && p < |l.nodes| && j < |l.nodes[p].next| && (i != j || (p != 0 && p !in c))
    ensures Level(SetNext(l, p, j, q), i, c)
  {
    var l' := SetNext(l, p, j, q);
    assert forall n :: 0 <= n < |l.nodes| ==>
                         l'.nodes[n].key == l.nodes[n].key && |l'.nodes[n].next| == |l.nodes[n].next|;
    forall k | 0 <= k <= |c|
      ensures l'.nodes[At(c, k)].next[i] == NextOf(c, k)
    {
      assert l.nodes[At(c, k)].next[i] == NextOf(c, k);
    }
  }

  /** Filling in the links of a node before it is reachable at that level changes no level. */
  lemma PrepareKeeps(l: List, cs: seq<seq<nat>>, x: nat, j: nat, q: Pointer)
    requires WellFormed(l, cs) && 0 < x < |l.nodes| && j < |l.nodes[x].next| && j < MAX_HEIGHT && x !in cs[j]
    ensures WellFormed(SetNext(l, x, j, q), cs) && Grows(Moment(l, cs), Moment(SetNext(l, x, j, q), cs))
  {
    forall i | 0 <= i < MAX_HEIGHT
      ensures Level(SetNext(l, x, j, q), i, cs[i])
    {
      assert Level(l, i, cs[i]);
      OtherLevel(l, i, cs[i], x, j, q);
    }
  }

  function Spliced(c: seq<nat>, k: nat, x: nat): (c': seq<nat>)
    requires k <= |c|
    ensures |c'| == |c| + 1 && forall n :: n in c' <==> n in c || n == x
  {
    c[..k] + [x] + c[k..]
  }

  /** Publishing `x` at level `i`, after the last node that is below it. */
  lemma LinkLevel(l: List, i: nat, c: seq<nat>, k: nat, x: nat)
    requires Level(l, i, c) && 0 < x < |l.nodes| && |l.nodes[x].next| > i && x !in c
    requires Split(l, c, Key(l.nodes[x].key), k) && l.nodes[x].next[i] == NextOf(c, k)
    requires forall j :: 0 <= j < |c| ==>
                           Less(l.nodes[c[j]].key, l.nodes[x].key) || Less(l.nodes[x].key, l.nodes[c[j]].key)
    ensures Level(SetNext(l, At(c, k), i, To(x)), i, Spliced(c, k, x))
  {
    var p, c' := At(c, k), Spliced(c, k, x);
    var l' := SetNext(l, p, i, To(x));
    LinkAscends(l, i, c, k, x);
    hide Below, Less;
    assert forall n :: 0 <= n < |l.nodes| ==>
                         l'.nodes[n].key == l.nodes[n].key && |l'.nodes[n].next| == |l.nodes[n].next|;
    assert Members(l', i, c');
    assert Ascends(l', c');
    hide Ascends, Split;
    forall j | 0 <= j <= |c'|
      ensures l'.nodes[At(c', j)].next[i] == NextOf(c', j)
    {
      LinkAt(l, i, c, k, x, j);
    }
  }

  lemma LinkAt(l: List, i: nat, c: seq<nat>, k: nat, x: nat, j: nat)
    requires Level(l, i, c) && x < |l.nodes| && |l.nodes[x].next| > i && x !in c && x != 0
    requires k <= |c| && l.nodes[x].next[i] == NextOf(c, k) && j <= |c| + 1
    ensures At(Spliced(c, k, x), j) < |l.nodes| && |l.nodes[At(Spliced(c, k, x), j)].next| > i
    ensures SetNext(l, At(c, k), i, To(x)).nodes[At(Spliced(c, k, x), j)].next[i] == NextOf(Spliced(c, k, x), j)
  {
    hide Ascends;
    var j' := if j <= k then j else j - 1;
    assert l.nodes[At(c, j')].next[i] == NextOf(c, j');
    if j' != k {
      Distinct(l, i, c, j', k);
    }
  }

  lemma LinkAscends(l: List, i: nat, c: seq<nat>, k: nat, x: nat)
    requires Level(l, i, c) && x < |l.nodes| && Split(l, c, Key(l.nodes[x].key), k)
    requires forall j :: 0 <= j < |c| ==>
                           Less(l.nodes[c[j]].key, l.nodes[x].key) || Less(l.nodes[x].key, l.nodes[c[j]].key)
    ensures Ascends(l, Spliced(c, k, x))
  {
    var c' := Spliced(c, k, x);
    forall a, b | 0 <= a < b < |c'|
      ensures Less(l.nodes[c'[a]].key, l.nodes[c'[b]].key)
    {
      var a', b' := if a < k then a else a - 1, if b < k then b else b - 1;
      if a == k {
        assert c'[b] == c[b'];
      } else if b == k {
        assert c'[a] == c[a] && Below(l, Key(l.nodes[x].key), c[a]);
      } else {
        assert c'[a] == c[a'] && c'[b] == c[b'];
      }
    }
  }

  lemma Distinct(l: List, i: nat, c: seq<nat>, a: nat, b: nat)
    requires Level(l, i, c) && a <= |c| && b <= |c| && a != b
    ensures At(c, a) != At(c, b)
  {
    var a', b' := if a < b then a else b, if a < b then b else a;
    if a' > 0 {
      assert Less(l.nodes[c[a' - 1]].key, l.nodes[c[b' - 1]].key);
    }
  }

  lemma LinkKeeps(l: List, cs: seq<seq<nat>>, i: nat, k: nat, x: nat)
    requires WellFormed(l, cs) && i < l.maxHeight && 0 < x < |l.nodes| && |l.nodes[x].next| > i && x !in cs[i]
    requires Level(l, i, cs[i]) && Split(l, cs[i], Key(l.nodes[x].key), k) && l.nodes[x].next[i] == NextOf(cs[i], k)
    requires forall j :: 0 <= j < |cs[i]| ==>
                           Less(l.nodes[cs[i][j]].key, l.nodes[x].key) || Less(l.nodes[x].key, l.nodes[cs[i][j]].key)
    requires i > 0 ==> x in cs[i - 1]
    ensures var l', cs' := SetNext(l, At(cs[i], k), i, To(x)), cs[i := Spliced(cs[i], k, x)];
            WellFormed(l', cs') && Grows(Moment(l, cs), Moment(l', cs'))
  {
    var p := At(cs[i], k);
    var l', cs' := SetNext(l, p, i, To(x)), cs[i := Spliced(cs[i], k, x)];
    LinkLevel(l, i, cs[i], k, x);
    forall j | 0 <= j < MAX_HEIGHT
      ensures Level(l', j, cs'[j])
    {
      if j != i {
        assert Level(l, j, cs[j]);
        OtherLevel(l, j, cs[j], p, i, To(x));
      }
    }
    forall j | 0 < j < MAX_HEIGHT
      ensures Sublist(cs'[j], cs'[j - 1])
    {
      assert Sublist(cs[j], cs[j - 1]);
    }
  }

  // Searching and inserting

  /** A search is at the `k`-th node of its level, which is below the bound. */
  ghost predicate On(l: List, cs: seq<seq<nat>>, bound: Bound, level: nat, k: nat, x: nat) {
    && |cs| == MAX_HEIGHT && level < MAX_HEIGHT && k <= |cs[level]| && x == At(cs[level], k)
    && x < |l.nodes| && level < |l.nodes[x].next| && (k > 0 ==> Below(l, bound, x))
  }

  lemma OnHead(l: List, cs: seq<seq<nat>>, bound: Bound)
    requires WellFormed(l, cs)
    ensures 1 <= l.maxHeight <= MAX_HEIGHT == |cs| && On(l, cs, bound, l.maxHeight - 1, 0, 0)
  {
    assert Level(l, l.maxHeight - 1, cs[l.maxHeight - 1]);
  }

  /** `p` is the last node of level `i` below the bound, the `k`-th. */
  ghost predicate PrevAt(l: List, cs: seq<seq<nat>>, i: nat, bound: Bound, k: nat, p: nat) {
    && i < |cs| && Level(l, i, cs[i]) && Split(l, cs[i], bound, k) && p == At(cs[i], k)
  }

  /** What a search finds behind the link it loads. */
  lemma Turn(l: List, cs: seq<seq<nat>>, bound: Bound, level: nat, k: nat, x: nat) returns (down: nat)
    requires WellFormed(l, cs) && On(l, cs, bound, level, k, x)
    ensures l.nodes[x].next[level] == NextOf(cs[level], k)
    ensures k < |cs[level]| ==> cs[level][k] < |l.nodes|
    ensures k < |cs[level]| && Below(l, bound, cs[level][k]) ==> On(l, cs, bound, level, k + 1, cs[level][k])
    ensures !(k < |cs[level]| && Below(l, bound, cs[level][k])) ==>
              PrevAt(l, cs, level, bound, k, x) && (level > 0 ==> On(l, cs, bound, level - 1, down, x))
  {
    var c := cs[level];
    down := 0;
    assert Level(l, level, c);
    assert l.nodes[At(c, k)].next[level] == NextOf(c, k);
    if k < |c| && Below(l, bound, c[k]) {
    } else {
      SplitHere(l, level, c, bound, k);
      if level > 0 {
        assert Sublist(c, cs[level - 1]) && Level(l, level - 1, cs[level - 1]);
        down := Descend(c, cs[level - 1], k);
      }
    }
  }

  lemma Descend(upper: seq<nat>, lower: seq<nat>, k: nat) returns (down: nat)
    requires Sublist(upper, lower) && k <= |upper|
    ensures down <= |lower| && At(lower, down) == At(upper, k) && (down > 0 <==> k > 0)
  {
    if k == 0 {
      down := 0;
    } else {
      assert upper[k - 1] in lower;
      var j :| 0 <= j < |lower| && lower[j] == upper[k - 1];
      down := j + 1;
    }
  }

  class SkipList {
    var list: List
    ghost var levels: seq<seq<nat>>

    ghost predicate Valid()
      reads this
    {
      WellFormed(list, levels)
    }

    /** The keys in the list. */
    ghost function Contents(): set<IKey>
      requires Valid()
      reads this
    {
      KeysOf(Moment(list, levels))
    }

    constructor ()
      ensures Valid() && Contents() == {}
    {
      var empty := List([Node(IKey([], 0, Deletion), seq(MAX_HEIGHT, _ => Null))], 1);
      list := empty;
      levels := seq(MAX_HEIGHT, _ => []);
      new;
      assert forall i :: 0 <= i < MAX_HEIGHT ==> Level(empty, i, []);
      assert levels[0] == [];
    }

    /** The first node that is not below `key`, and the last node below it on every level in use. */
    method FindGreaterOrEqual(key: IKey) returns (next: Pointer, prev: seq<nat>, ghost ks: seq<nat>)
      requires Valid()
      ensures |prev| == |ks| == MAX_HEIGHT && 1 <= list.maxHeight <= MAX_HEIGHT
      ensures forall i :: 0 <= i < list.maxHeight ==> PrevAt(list, levels, i, Key(key), ks[i], prev[i])
      ensures PrevAt(list, levels, 0, Key(key), ks[0], prev[0]) && next == NextOf(levels[0], ks[0])
    {
      hide WellFormed, PrevAt, Below;
      OnHead(list, levels, Key(key));
      var x: nat, level: nat := 0, list.maxHeight - 1;
      ghost var k: nat := 0;
      prev := seq(MAX_HEIGHT, _ => 0);
      ks := seq(MAX_HEIGHT, _ => 0);
      while true
        invariant level < list.maxHeight <= MAX_HEIGHT == |prev| == |ks| && On(list, levels, Key(key), level, k, x)
        invariant forall i :: level < i < list.maxHeight ==> PrevAt(list, levels, i, Key(key), ks[i], prev[i])
        decreases level, |levels[level]| - k
      {
        ghost var down := Turn(list, levels, Key(key), level, k, x);
        next := list.nodes[x].next[level];
        if next.To? && Below(list, Key(key), next.node) {
          x, k := next.node, k + 1;
        } else {
          prev, ks := prev[level := x], ks[level := k];
          if level == 0 {
            return;
          }
          level, k := level - 1, down;
        }
      }
    }

    /** The last node below `key`, or the head. */
    method FindLessThan(key: IKey) returns (x: nat, ghost k: nat)
      requires Valid()
      ensures PrevAt(list, levels, 0, Key(key), k, x)
    {
      hide WellFormed, PrevAt, Below;
      OnHead(list, levels, Key(key));
      var level: nat := list.maxHeight - 1;
      x, k := 0, 0;
      while true
        invariant On(list, levels, Key(key), level, k, x)
        decreases level, |levels[level]| - k
      {
        ghost var down := Turn(list, levels, Key(key), level, k, x);
        var next := list.nodes[x].next[level];
        if next == Null || !Below(list, Key(key), next.node) {
          if level == 0 {
            return;
          }
          level, k := level - 1, down;
        } else {
          x, k := next.node, k + 1;
        }
      }
    }

    /** The last node, or the head. */
    method FindLast() returns (x: nat)
      requires Valid()
      ensures |levels| > 0 && x == At(levels[0], |levels[0]|)
    {
      hide WellFormed;
      OnHead(list, levels, Infinite);
      var level: nat := list.maxHeight - 1;
      ghost var k: nat := 0;
      x := 0;
      while true
        invariant On(list, levels, Infinite, level, k, x)
        decreases level, |levels[level]| - k
      {
        ghost var down := Turn(list, levels, Infinite, level, k, x);
        var next := list.nodes[x].next[level];
        if next == Null {
          if level == 0 {
            return;
          }
          level, k := level - 1, down;
        } else {
          x, k := next.node, k + 1;
        }
      }
    }

    method Contains(key: IKey) returns (found: bool)
      requires Valid()
      ensures found <==> exists k :: k in Contents() && !Less(k, key) && !Less(key, k)
    {
      var next, prev, ks := FindGreaterOrEqual(key);
      found := next.To? && !Less(key, list.nodes[next.node].key);
      ContainsIsSplit(list, levels, key, ks[0]);
    }

    /**
     Inserts `key` in a node of the given height. `run` lists the list at every moment of the
     insertion: each is one store after the last, and each is well formed.
     */
    method Insert(key: IKey, height: nat) returns (ghost run: seq<Moment>)
      requires Valid() && 1 <= height <= MAX_HEIGHT
      requires forall q :: q in Contents() ==> Less(q, key) || Less(key, q)
      modifies this
      ensures Valid() && Contents() == old(Contents()) + {key}
      ensures Run(run) && run[0] == old(Moment(list, levels)) && run[|run| - 1] == Moment(list, levels)
      ensures OldOrNew(run, old(Contents()), key)
    {
      hide WellFormed, PrevAt, Grows, Store, Run, Ready, Linking, Less, KeysOf, Raise, Allocate, Apart, SetNext;
      ghost var before := Contents();
      var next, prev, ks := FindGreaterOrEqual(key);
      run := [Moment(list, levels)];
      RunStarts(run[0]);
      ApartEverywhere(list, levels, key);
      if height > list.maxHeight {
        for i := list.maxHeight to height
          invariant |prev| == |ks| == MAX_HEIGHT
          invariant forall j :: 0 <= j < list.maxHeight ==> PrevAt(list, levels, j, Key(key), ks[j], prev[j])
          invariant forall j :: list.maxHeight <= j < i ==> prev[j] == 0 && ks[j] == 0
        {
          prev, ks := prev[i := 0], ks[i := 0];
        }
        RaiseReady(list, levels, key, height, prev, ks);
        run := Extended(run, Moment(Raise(list, height), levels));
        list := Raise(list, height);
      } else {
        ReadyNow(list, levels, key, height, prev, ks);
      }
      assert Ready(Moment(list, levels), key, height, prev, ks);
      var x := |list.nodes|;
      AllocateLinking(list, levels, key, height, prev, ks);
      run := Extended(run, Moment(Allocate(list, key, height), levels));
      list := Allocate(list, key, height);
      for i := 0 to height
        invariant Linking(Moment(list, levels), key, height, x, i, prev, ks)
        invariant Ok(Moment(list, levels)) && KeysOf(Moment(list, levels)) == if i == 0 then before else before + {key}
        invariant Run(run) && |run| > 0 && run[0] == old(Moment(list, levels)) && run[|run| - 1] == Moment(list, levels)
        invariant OldOrNew(run, before, key)
      {
        PrepareTurn(list, levels, key, height, x, i, prev, ks);
        var after := list.nodes[prev[i]].next[i];
        run := Extended(run, Moment(SetNext(list, x, i, after), levels));
        list := SetNext(list, x, i, after);
        PublishTurn(list, levels, key, height, x, i, prev, ks);
        ghost var levels' := levels[i := Spliced(levels[i], ks[i], x)];
        run := Extended(run, Moment(SetNext(list, prev[i], i, To(x)), levels'));
        list, levels := SetNext(list, prev[i], i, To(x)), levels';
      }
    }
  }

  lemma ContainsIsSplit(l: List, cs: seq<seq<nat>>, key: IKey, k: nat)
    requires WellFormed(l, cs) && Level(l, 0, cs[0]) && Split(l, cs[0], Key(key), k)
    ensures (exists q :: q in KeysOf(Moment(l, cs)) && !Less(q, key) && !Less(key, q))
       <==> k < |cs[0]| && !Less(key, l.nodes[cs[0][k]].key)
  {
    var c := cs[0];
    if k < |c| && !Less(key, l.nodes[c[k]].key) {
      assert l.nodes[c[k]].key in KeysOf(Moment(l, cs)) && !Below(l, Key(key), c[k]);
    }
    forall q | q in KeysOf(Moment(l, cs)) && !Less(q, key) && !Less(key, q)
      ensures k < |c| && !Less(key, l.nodes[c[k]].key)
    {
      var j :| 0 <= j < |c| && l.nodes[c[j]].key == q;
      assert !Below(l, Key(key), c[j]);
    }
  }

  ghost function KeysOf(m: Moment): set<IKey>
    requires Ok(m)
  {
    assert Level(m.list, 0, m.levels[0]);
    set k | 0 <= k < |m.levels[0]| :: m.list.nodes[m.levels[0][k]].key
  }

  /** Moments one store apart, each well formed. */
  ghost predicate Run(run: seq<Moment>) {
    && |run| > 0 && (forall m :: m in run ==> Ok(m))
    && (forall k :: 0 < k < |run| ==> Store(run[k - 1].list, run[k].list) && Grows(run[k - 1], run[k]))
  }

  lemma RunStarts(m: Moment)
    requires Ok(m)
    ensures Run([m])
  {
  }

  /** At every moment the list holds the old keys, or those and the new one. */
  ghost predicate OldOrNew(run: seq<Moment>, before: set<IKey>, key: IKey) {
    forall m :: m in run ==> Ok(m) && (KeysOf(m) == before || KeysOf(m) == before + {key})
  }

  ghost function Extended(run: seq<Moment>, m: Moment): (run': seq<Moment>)
    requires Run(run) && Ok(m) && Store(run[|run| - 1].list, m.list) && Grows(run[|run| - 1], m)
    ensures Run(run') && run' == run + [m]
  {
    hide Store, Grows, Ok;
    assert forall k :: 0 < k < |run| + 1 ==> Store((run + [m])[k - 1].list, (run + [m])[k].list);
    assert forall k :: 0 < k < |run| + 1 ==> Grows((run + [m])[k - 1], (run + [m])[k]);
    run + [m]
  }

  /** No node on any level has a key equal to `key`. */
  ghost predicate Apart(l: List, cs: seq<seq<nat>>, key: IKey) {
    forall i, j :: 0 <= i < |cs| && 0 <= j < |cs[i]| ==>
                     cs[i][j] < |l.nodes| && (Less(l.nodes[cs[i][j]].key, key) || Less(key, l.nodes[cs[i][j]].key))
  }

  lemma {:induction false} OnBottom(l: List, cs: seq<seq<nat>>, i: nat, n: nat)
    requires WellFormed(l, cs) && i < MAX_HEIGHT && n in cs[i]
    ensures n in cs[0]
  {
    if i > 0 {
      assert Sublist(cs[i], cs[i - 1]);
      OnBottom(l, cs, i - 1, n);
    }
  }

  lemma ApartEverywhere(l: List, cs: seq<seq<nat>>, key: IKey)
    requires WellFormed(l, cs) && forall q :: q in KeysOf(Moment(l, cs)) ==> Less(q, key) || Less(key, q)
    ensures Apart(l, cs, key)
  {
    forall i, j | 0 <= i < |cs| && 0 <= j < |cs[i]|
      ensures cs[i][j] < |l.nodes| && (Less(l.nodes[cs[i][j]].key, key) || Less(key, l.nodes[cs[i][j]].key))
    {
      OnBottom(l, cs, i, cs[i][j]);
      assert Level(l, 0, cs[0]);
      assert l.nodes[cs[i][j]].key in KeysOf(Moment(l, cs));
    }
  }

  /** The predecessors of `key` are known on the first `height` levels. */
  ghost predicate Ready(m: Moment, key: IKey, height: nat, prev: seq<nat>, ks: seq<nat>) {
    && Ok(m) && Apart(m.list, m.levels, key) && height <= m.list.maxHeight && |prev| == |ks| == MAX_HEIGHT
    && forall j :: 0 <= j < height ==> PrevAt(m.list, m.levels, j, Key(key), ks[j], prev[j])
  }

  lemma ReadyNow(l: List, cs: seq<seq<nat>>, key: IKey, height: nat, prev: seq<nat>, ks: seq<nat>)
    requires WellFormed(l, cs) && Apart(l, cs, key) && height <= l.maxHeight && |prev| == |ks| == MAX_HEIGHT
    requires forall j :: 0 <= j < l.maxHeight ==> PrevAt(l, cs, j, Key(key), ks[j], prev[j])
    ensures Ready(Moment(l, cs), key, height, prev, ks)
  {
    hide PrevAt, WellFormed, Apart;
  }

  lemma RaiseReady(l: List, cs: seq<seq<nat>>, key: IKey, height: nat, prev: seq<nat>, ks: seq<nat>)
    requires WellFormed(l, cs) && Apart(l, cs, key) && l.maxHeight < height <= MAX_HEIGHT
    requires |prev| == |ks| == MAX_HEIGHT
    requires forall j :: 0 <= j < l.maxHeight ==> PrevAt(l, cs, j, Key(key), ks[j], prev[j])
    requires forall j :: l.maxHeight <= j < height ==> prev[j] == 0 && ks[j] == 0
    ensures Ok(Moment(Raise(l, height), cs)) && Ready(Moment(Raise(l, height), cs), key, height, prev, ks)
    ensures Store(l, Raise(l, height))
    ensures Grows(Moment(l, cs), Moment(Raise(l, height), cs))
    ensures KeysOf(Moment(Raise(l, height), cs)) == KeysOf(Moment(l, cs))
  {
    RaiseKeeps(l, cs, height);
    var l' := Raise(l, height);
    forall j | 0 <= j < height
      ensures PrevAt(l', cs, j, Key(key), ks[j], prev[j])
    {
      assert Level(l', j, cs[j]);
      if j < l.maxHeight {
        assert PrevAt(l, cs, j, Key(key), ks[j], prev[j]);
      }
    }
    SameKeys(Moment(l, cs), Moment(l', cs));
  }

  lemma SameKeys(a: Moment, b: Moment)
    requires Ok(a) && Ok(b) && Grows(a, b) && a.levels[0] == b.levels[0]
    ensures KeysOf(a) == KeysOf(b)
  {
    assert Level(a.list, 0, a.levels[0]);
    assert forall k :: 0 <= k < |a.levels[0]| ==> a.list.nodes[a.levels[0][k]].key == b.list.nodes[a.levels[0][k]].key;
  }

  /** Node `x` holds `key` and is on the first `i` levels; the links of the others are still to be stored. */
  ghost predicate Linking(m: Moment, key: IKey, height: nat, x: nat, i: nat, prev: seq<nat>, ks: seq<nat>) {
    && Ok(m) && i <= height <= m.list.maxHeight && |prev| == |ks| == MAX_HEIGHT
    && 0 < x < |m.list.nodes| && m.list.nodes[x].key == key && |m.list.nodes[x].next| == height
    && (forall j :: i <= j < height ==> x !in m.levels[j] && PrevAt(m.list, m.levels, j, Key(key), ks[j], prev[j]))
    && (forall j :: i <= j < height ==> ApartAt(m.list, m.levels[j], key))
    && (i > 0 ==> x in m.levels[i - 1])
  }

  ghost predicate ApartAt(l: List, c: seq<nat>, key: IKey) {
    forall j :: 0 <= j < |c| ==> c[j] < |l.nodes| && (Less(l.nodes[c[j]].key, key) || Less(key, l.nodes[c[j]].key))
  }

  lemma AllocateLinking(l: List, cs: seq<seq<nat>>, key: IKey, height: nat, prev: seq<nat>, ks: seq<nat>)
    requires Ok(Moment(l, cs)) && Ready(Moment(l, cs), key, height, prev, ks)
    ensures var m' := Moment(Allocate(l, key, height), cs);
            && Ok(m') && Linking(m', key, height, |l.nodes|, 0, prev, ks) && Store(l, m'.list)
            && Grows(Moment(l, cs), m') && KeysOf(m') == KeysOf(Moment(l, cs))
  {
    AllocateKeeps(l, cs, key, height);
    var l', x := Allocate(l, key, height), |l.nodes|;
    assert Level(l, 0, cs[0]);
    forall j | 0 <= j < height
      ensures x !in cs[j] && PrevAt(l', cs, j, Key(key), ks[j], prev[j]) && ApartAt(l', cs[j], key)
    {
      assert Level(l', j, cs[j]) && Level(l, j, cs[j]);
      assert PrevAt(l, cs, j, Key(key), ks[j], prev[j]);
    }
    SameKeys(Moment(l, cs), Moment(l', cs));
  }

  /** A predecessor stays one while other levels change and keys stay. */
  lemma PrevStays(a: List, la: seq<seq<nat>>, b: List, bs: seq<seq<nat>>, i: nat, key: IKey, k: nat, p: nat)
    requires WellFormed(a, la) && WellFormed(b, bs) && Grows(Moment(a, la), Moment(b, bs)) && i < MAX_HEIGHT
    requires la[i] == bs[i]
    requires PrevAt(a, la, i, Key(key), k, p) && ApartAt(a, la[i], key)
    ensures PrevAt(b, bs, i, Key(key), k, p) && ApartAt(b, bs[i], key)
  {
    assert Level(a, i, la[i]) && Level(b, i, bs[i]);
    forall j | 0 <= j < |bs[i]|
      ensures b.nodes[bs[i][j]].key == a.nodes[la[i][j]].key
    {
    }
  }

  /** Storing the successor in `x` changes no level. */
  lemma PrepareTurn(l: List, cs: seq<seq<nat>>, key: IKey, height: nat, x: nat, i: nat, prev: seq<nat>, ks: seq<nat>)
    requires Ok(Moment(l, cs)) && Linking(Moment(l, cs), key, height, x, i, prev, ks) && i < height
    ensures LinkSafe(l, cs, x, i, prev, ks)
    ensures var m' := Moment(SetNext(l, x, i, l.nodes[prev[i]].next[i]), cs);
            && Ok(m') && Grows(Moment(l, cs), m') && Store(l, m'.list) && KeysOf(m') == KeysOf(Moment(l, cs))
            && Linking(m', key, height, x, i, prev, ks) && m'.list.nodes[x].next[i] == NextOf(cs[i], ks[i])
            && LinkSafe(m'.list, cs, x, i, prev, ks)
  {
    hide Grows, Store, KeysOf, WellFormed;
    WellFormedShape(l, cs);
    assert PrevAt(l, cs, i, Key(key), ks[i], prev[i]);
    assert Level(l, i, cs[i]);
    assert l.nodes[At(cs[i], ks[i])].next[i] == NextOf(cs[i], ks[i]);
    var q := l.nodes[prev[i]].next[i];
    var l' := SetNext(l, x, i, q);
    PrepareKeeps(l, cs, x, i, q);
    StoreLink(l, x, i, q);
    SameKeysHere(l, l', cs);
    forall j | i <= j < height
      ensures PrevAt(l', cs, j, Key(key), ks[j], prev[j]) && ApartAt(l', cs[j], key)
    {
      PrevStays(l, cs, l', cs, j, key, ks[j], prev[j]);
    }
  }

  lemma WellFormedShape(l: List, cs: seq<seq<nat>>)
    requires WellFormed(l, cs)
    ensures |cs| == MAX_HEIGHT && 1 <= l.maxHeight <= MAX_HEIGHT
  {
  }

  lemma SameKeysHere(l: List, l': List, cs: seq<seq<nat>>)
    requires WellFormed(l, cs) && WellFormed(l', cs) && Grows(Moment(l, cs), Moment(l', cs))
    ensures KeysOf(Moment(l, cs)) == KeysOf(Moment(l', cs))
  {
    SameKeys(Moment(l, cs), Moment(l', cs));
  }

  lemma StoreLink(l: List, p: nat, i: nat, q: Pointer)
    requires p < |l.nodes| && i < |l.nodes[p].next|
    ensures Store(l, SetNext(l, p, i, q))
  {
  }

  ghost predicate LinkSafe(l: List, cs: seq<seq<nat>>, x: nat, i: nat, prev: seq<nat>, ks: seq<nat>) {
    && i < |cs| && i < |prev| && i < |ks| && ks[i] <= |cs[i]| && prev[i] == At(cs[i], ks[i]) && prev[i] < |l.nodes|
    && prev[i] != x
    && i < |l.nodes[prev[i]].next| && x < |l.nodes| && i < |l.nodes[x].next|
  }

  /** Then storing `x` in its predecessor puts it on level `i`. */
  lemma PublishTurn(l: List, cs: seq<seq<nat>>, key: IKey, height: nat, x: nat, i: nat, prev: seq<nat>, ks: seq<nat>)
    requires Ok(Moment(l, cs)) && Linking(Moment(l, cs), key, height, x, i, prev, ks) && i < height
    requires LinkSafe(l, cs, x, i, prev, ks)
    requires l.nodes[x].next[i] == NextOf(cs[i], ks[i])
    ensures var m' := Moment(SetNext(l, prev[i], i, To(x)), cs[i := Spliced(cs[i], ks[i], x)]);
            && Ok(m') && Grows(Moment(l, cs), m') && Store(l, m'.list) && Linking(m', key, height, x, i + 1, prev, ks)
            && KeysOf(m') == KeysOf(Moment(l, cs)) + if i == 0 then {key} else {}
  {
    hide Grows, Store, KeysOf, WellFormed;
    WellFormedShape(l, cs);
    assert PrevAt(l, cs, i, Key(key), ks[i], prev[i]) && ApartAt(l, cs[i], key);
    var l', cs' := SetNext(l, prev[i], i, To(x)), cs[i := Spliced(cs[i], ks[i], x)];
    LinkKeeps(l, cs, i, ks[i], x);
    StoreLink(l, prev[i], i, To(x));
    PublishKeys(l, cs, l', cs', i, ks[i], x);
    forall j | i + 1 <= j < height
      ensures x !in cs'[j] && PrevAt(l', cs', j, Key(key), ks[j], prev[j]) && ApartAt(l', cs'[j], key)
    {
      PrevStays(l, cs, l', cs', j, key, ks[j], prev[j]);
    }
  }

  lemma PublishKeys(l: List, cs: seq<seq<nat>>, l': List, cs': seq<seq<nat>>, i: nat, k: nat, x: nat)
    requires WellFormed(l, cs) && WellFormed(l', cs') && Grows(Moment(l, cs), Moment(l', cs')) && x < |l.nodes|
    requires i < MAX_HEIGHT && k <= |cs[i]| && cs' == cs[i := Spliced(cs[i], k, x)]
    ensures KeysOf(Moment(l', cs')) == KeysOf(Moment(l, cs)) + if i == 0 then {l.nodes[x].key} else {}
  {
    if i > 0 {
      SameKeys(Moment(l, cs), Moment(l', cs'));
    } else {
      assert Level(l, 0, cs[0]) && Level(l', 0, cs'[0]);
      hide WellFormed, Sublist, Linked, Ascends;
      KeysSpliced(l, l', cs[0], k, x);
    }
  }

  lemma KeysSpliced(l: List, l': List, c: seq<nat>, k: nat, x: nat)
    requires k <= |c| && x < |l.nodes| <= |l'.nodes| && Members(l, 0, c) && Members(l', 0, Spliced(c, k, x))
    requires forall n :: 0 <= n < |l.nodes| ==> l'.nodes[n].key == l.nodes[n].key
    ensures var c' := Spliced(c, k, x);
            (set j | 0 <= j < |c'| :: l'.nodes[c'[j]].key) == (set j | 0 <= j < |c| :: l.nodes[c[j]].key) +
            {l.nodes[x].key}
  {
    var c' := Spliced(c, k, x);
    var a, b := (set j | 0 <= j < |c| :: l.nodes[c[j]].key) + {l.nodes[x].key},
                set j | 0 <= j < |c'| :: l'.nodes[c'[j]].key;
    forall q | q in a
      ensures q in b
    {
      if q == l.nodes[x].key {
        assert c'[k] == x;
      } else {
        var j :| 0 <= j < |c| && l.nodes[c[j]].key == q;
        assert c'[if j < k then j else j + 1] == c[j];
      }
    }
    forall q | q in b
      ensures q in a
    {
      var j :| 0 <= j < |c'| && l'.nodes[c'[j]].key == q;
      assert j == k || c'[j] == c[if j < k then j else j - 1];
    }
  }

  // Readers that run while keys are inserted

  /** Runs of consecutive insertions join into one run. */
  lemma RunsJoin(a: seq<Moment>, b: seq<Moment>)
    requires Run(a) && Run(b) && a[|a| - 1] == b[0]
    ensures Run(a + b[1..])
  {
    hide Store, Grows, Ok;
    var run := a + b[1..];
    forall k | 0 < k < |run|
      ensures Store(run[k - 1].list, run[k].list) && Grows(run[k - 1], run[k])
    {
      if k >= |a| {
        assert run[k] == b[k - |a| + 1] && run[k - 1] == b[k - |a|];
      }
    }
  }

  /**
   A search that makes its `j`-th load at moment `times[j]` of the run; between loads any number of stores
   may happen.
   */
  ghost predicate Reading(run: seq<Moment>, bound: Bound, times: seq<nat>, rs: seq<Reader>) {
    && |rs| == |times| + 1 && rs[0].Going? && rs[0].node == 0 && rs[0].level < MAX_HEIGHT
    && (forall j :: 0 <= j < |times| ==>
                      times[j] < |run| && rs[j].Going? && rs[j + 1] == Look(run[times[j]].list, bound, rs[j]))
    && (forall j :: 0 < j < |times| ==> times[j - 1] <= times[j])
  }

  lemma {:induction false} ReaderOkLater(run: seq<Moment>, bound: Bound, r: Reader, a: nat, b: nat)
    requires Run(run) && a <= b < |run| && Ok(run[a]) && ReaderOk(run[a].list, run[a].levels, bound, r)
    ensures Ok(run[b]) && ReaderOk(run[b].list, run[b].levels, bound, r)
    decreases b - a
  {
    hide WellFormed, ReaderOk, Store, Grows;
    if a < b {
      assert Ok(run[a + 1]) && Grows(run[(a + 1) - 1], run[a + 1]);
      ReaderSurvives(run[a], run[a + 1], bound, r);
      ReaderOkLater(run, bound, r, a + 1, b);
    }
  }

  lemma {:induction false} ReadingOk(run: seq<Moment>, bound: Bound, times: seq<nat>, rs: seq<Reader>, j: nat)
    requires Run(run) && Reading(run, bound, times, rs) && j < |times|
    ensures times[j] < |run| && Ok(run[times[j]]) && ReaderOk(run[times[j]].list, run[times[j]].levels, bound, rs[j])
  {
    hide WellFormed, Store, Grows, Look;
    assert rs[j].Going?;
    assert run[times[j]] in run;
    WellFormedShape(run[times[j]].list, run[times[j]].levels);
    if j > 0 {
      ReadingOk(run, bound, times, rs, j - 1);
      var m := run[times[j - 1]];
      var k := LookKeeps(m.list, m.levels, bound, rs[j - 1]);
      assert rs[(j - 1) + 1] == Look(m.list, bound, rs[j - 1]);
      ReaderOkLater(run, bound, rs[j], times[j - 1], times[j]);
    }
  }

  /**
   A search that runs while keys are being inserted never follows a bad pointer, and its answer
   is exactly that of a linear search of the list as it was at the search's last load.
   */
  lemma SearchDuringInserts(run: seq<Moment>, bound: Bound, times: seq<nat>, rs: seq<Reader>) returns (k: nat)
    requires Run(run) && Reading(run, bound, times, rs) && |times| > 0
    ensures !rs[|times|].Fault?
    ensures times[|times| - 1] < |run| && Ok(run[times[|times| - 1]])
    ensures rs[|times|].Done? ==> Answers(run[times[|times| - 1]], bound, rs[|times|], k)
  {
    hide WellFormed, Store, Grows, Look, Answers, ReaderOk;
    var j := |times| - 1;
    ReadingOk(run, bound, times, rs, j);
    var m := run[times[j]];
    k := LookKeeps(m.list, m.levels, bound, rs[j]);
    assert rs[j + 1] == Look(m.list, bound, rs[j]);
  }

  /** A cursor over the bottom level. */
  class Iterator {
    const list: SkipList
    var node: Pointer

    constructor (list: SkipList)
      ensures this.list == list && node == Null
    {
      this.list := list;
      node := Null;
    }

    /** The cursor is on the `k`-th key in order. */
    ghost predicate OnKey(k: nat)
      requires list.Valid()
      reads this, list
    {
      |list.levels| > 0 && k < |list.levels[0]| && node == To(list.levels[0][k])
    }

    method Next(ghost k: nat)
      requires list.Valid() && OnKey(k)
      modifies this
      ensures if k + 1 < |list.levels[0]| then OnKey(k + 1) else node == Null
    {
      var l, c := list.list, list.levels[0];
      assert Level(l, 0, c);
      assert l.nodes[At(c, k + 1)].next[0] == NextOf(c, k + 1);
      node := l.nodes[node.node].next[0];
    }

    method Prev(ghost k: nat)
      requires list.Valid() && OnKey(k)
      modifies this
      ensures if k > 0 then OnKey(k - 1) else node == Null
    {
      ghost var c := list.levels[0];
      assert Level(list.list, 0, c);
      var key := list.list.nodes[node.node].key;
      var x, n := list.FindLessThan(key);
      SplitAtNode(list.list, c, k, n);
      node := if x == 0 then Null else To(x);
    }

    method Seek(key: IKey) returns (ghost k: nat)
      requires list.Valid()
      modifies this
      ensures Level(list.list, 0, list.levels[0]) && Split(list.list, list.levels[0], Key(key), k)
      ensures if k < |list.levels[0]| then OnKey(k) else node == Null
    {
      var next, prev, ks := list.FindGreaterOrEqual(key);
      node, k := next, ks[0];
    }

    method SeekToFirst()
      requires list.Valid()
      modifies this
      ensures |list.levels| > 0 && if list.levels[0] == [] then node == Null else OnKey(0)
    {
      assert Level(list.list, 0, list.levels[0]);
      assert list.list.nodes[At(list.levels[0], 0)].next[0] == NextOf(list.levels[0], 0);
      node := list.list.nodes[0].next[0];
    }

    method SeekToLast()
      requires list.Valid()
      modifies this
      ensures |list.levels| > 0 && if list.levels[0] == [] then node == Null else OnKey(|list.levels[0]| - 1)
    {
      assert Level(list.list, 0, list.levels[0]);
      var x := list.FindLast();
      node := if x == 0 then Null else To(x);
    }
  }

  /** The nodes below the key of the `k`-th node are the `k` before it. */
  lemma SplitAtNode(l: List, c: seq<nat>, k: nat, n: nat)
    requires Level(l, 0, c) && k < |c| && Split(l, c, Key(l.nodes[c[k]].key), n)
    ensures n == k
  {
    assert !Below(l, Key(l.nodes[c[k]].key), c[k]);
    if k > 0 {
      assert Less(l.nodes[c[k - 1]].key, l.nodes[c[k]].key);
      assert Below(l, Key(l.nodes[c[k]].key), c[k - 1]);
    }
  }
}
