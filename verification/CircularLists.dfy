/**
 The cache's two circular lists: an entry is in at most one of them, and the lists share the links
 of the entries.
 */
module CircularLists {

  /** A list head, or an entry. */
  datatype Node = LruHead | InUseHead | Item(id: nat)

  datatype Links = Links(next: map<Node, Node>, prev: map<Node, Node>)

  ghost predicate NoDup(l: seq<nat>) {
    forall i, j :: 0 <= i < j < |l| ==> l[i] != l[j]
  }

  function Without(l: seq<nat>, x: nat): seq<nat> {
    if l == [] then [] else if l[0] == x then l[1..] else [l[0]] + Without(l[1..], x)
  }

  /** The nodes of a list in order: its head, its items, its head again. */
  function At(head: Node, l: seq<nat>, i: nat): Node {
    if 0 < i <= |l| then Item(l[i - 1]) else head
  }

  /** Place `i` and the next are linked both ways. */
  ghost predicate Joint(k: Links, a: Node, b: Node) {
    a in k.next && k.next[a] == b && b in k.prev && k.prev[b] == a
  }

  /** The links go around the list. */
  ghost predicate Ring(k: Links, head: Node, l: seq<nat>) {
    !head.Item? && forall i :: 0 <= i <= |l| ==> Joint(k, At(head, l, i), At(head, l, i + 1))
  }

  // Taking an entry out

  /** e->next->prev = e->prev; e->prev->next = e->next. */
  function Unlinked(k: Links, e: Node): Links
    requires e in k.next && e in k.prev
  {
    Links(k.next[k.prev[e] := k.next[e]], k.prev[k.next[e] := k.prev[e]])
  }

  lemma {:induction false} WithoutAt(l: seq<nat>, x: nat) returns (k: nat)
    requires x in l
    ensures k < |l| && l[k] == x && Without(l, x) == l[..k] + l[k + 1..]
  {
    if l[0] == x {
      k := 0;
    } else {
      var m := WithoutAt(l[1..], x);
      k := m + 1;
      assert l[..k] == [l[0]] + l[1..][..m] && l[k + 1..] == l[1..][m + 1..];
    }
  }

  lemma Member(k: Links, head: Node, l: seq<nat>, x: nat) returns (i: nat)
    requires Ring(k, head, l) && x in l
    ensures i < |l| && l[i] == x && Item(x) in k.next && Item(x) in k.prev
    ensures k.next[Item(x)] == At(head, l, i + 2) && k.prev[Item(x)] == At(head, l, i)
    ensures Without(l, x) == l[..i] + l[i + 1..]
  {
    i := WithoutAt(l, x);
    assert Joint(k, At(head, l, i), At(head, l, i + 1)) && Joint(k, At(head, l, i + 1), At(head, l, i + 2));
  }

  lemma UnlinkRing(k: Links, head: Node, l: seq<nat>, x: nat)
    requires Ring(k, head, l) && NoDup(l) && x in l
    ensures Item(x) in k.next && Item(x) in k.prev && Ring(Unlinked(k, Item(x)), head, Without(l, x))
  {
    var p := Member(k, head, l, x);
    var r, k' := Without(l, x), Unlinked(k, Item(x));
    forall i | 0 <= i <= |r|
      ensures Joint(k', At(head, r, i), At(head, r, i + 1))
    {
      if i < p {
        assert Joint(k, At(head, l, i), At(head, l, i + 1));
      } else if i > p {
        assert Joint(k, At(head, l, i + 1), At(head, l, i + 2));
      }
    }
  }

  /** A list whose nodes are others keeps its links. */
  lemma UnlinkOther(k: Links, head: Node, l: seq<nat>, x: nat, head': Node, l': seq<nat>)
    requires Ring(k, head, l) && x in l && Ring(k, head', l') && head != head' && forall y :: y in l ==> y !in l'
    ensures Item(x) in k.next && Item(x) in k.prev && Ring(Unlinked(k, Item(x)), head', l')
  {
    var p := Member(k, head, l, x);
    forall i | 0 <= i <= |l'|
      ensures Joint(Unlinked(k, Item(x)), At(head', l', i), At(head', l', i + 1))
    {
      assert Joint(k, At(head', l', i), At(head', l', i + 1));
      Apart(head, l, p, head', l', i);
      Apart(head, l, p + 2, head', l', i + 1);
    }
  }

  lemma Apart(head: Node, l: seq<nat>, i: nat, head': Node, l': seq<nat>, j: nat)
    requires !head.Item? && !head'.Item? && head != head' && forall y :: y in l ==> y !in l'
    ensures At(head, l, i) != At(head', l', j)
  {
    assert 0 < i <= |l| ==> l[i - 1] in l;
  }

  // Putting an entry in

  /** e->next = list; e->prev = list->prev; e->prev->next = e; e->next->prev = e. */
  function Appended(k: Links, list: Node, e: Node): Links
    requires list in k.prev
  {
    var last := k.prev[list];
    Links(k.next[e := list][last := e], k.prev[e := last][list := e])
  }

  lemma HeadLinked(k: Links, head: Node, l: seq<nat>)
    requires Ring(k, head, l)
    ensures head in k.next && k.next[head] == At(head, l, 1) && head in k.prev && k.prev[head] == At(head, l, |l|)
  {
    assert Joint(k, At(head, l, 0), At(head, l, 1)) && Joint(k, At(head, l, |l|), At(head, l, |l| + 1));
  }

  lemma AppendRing(k: Links, head: Node, l: seq<nat>, x: nat)
    requires Ring(k, head, l) && NoDup(l) && x !in l
    ensures head in k.prev && Ring(Appended(k, head, Item(x)), head, l + [x])
  {
    HeadLinked(k, head, l);
    var r, k' := l + [x], Appended(k, head, Item(x));
    forall i | 0 <= i <= |r|
      ensures Joint(k', At(head, r, i), At(head, r, i + 1))
    {
      if i < |l| {
        assert Joint(k, At(head, l, i), At(head, l, i + 1));
      }
    }
  }

  lemma AppendOther(k: Links, head: Node, l: seq<nat>, x: nat, head': Node, l': seq<nat>)
    requires Ring(k, head, l) && Ring(k, head', l') && head != head' && x !in l' && forall y :: y in l ==> y !in l'
    ensures head in k.prev && Ring(Appended(k, head, Item(x)), head', l')
  {
    HeadLinked(k, head, l);
    forall i | 0 <= i <= |l'|
      ensures Joint(Appended(k, head, Item(x)), At(head', l', i), At(head', l', i + 1))
    {
      assert Joint(k, At(head', l', i), At(head', l', i + 1));
      Apart(head, l, |l|, head', l', i);
      Apart(head, l, 0, head', l', i + 1);
    }
  }

  /** The oldest entry is behind the head; the head is behind itself when there is none. */
  lemma AfterHead(k: Links, head: Node, l: seq<nat>)
    requires Ring(k, head, l)
    ensures head in k.next && k.next[head] == if l == [] then head else Item(l[0])
  {
    HeadLinked(k, head, l);
  }

  const EMPTY: Links := Links(map[LruHead := LruHead, InUseHead := InUseHead],
                              map[LruHead := LruHead, InUseHead := InUseHead])

  lemma EmptyRings()
    ensures Ring(EMPTY, LruHead, []) && Ring(EMPTY, InUseHead, [])
  {
  }
}
