/**
 Every finite set has an ascending listing under an order that compares any two of its members.
 */
module Listings {
  import opened Keys
  import opened Reads
  import opened Drops

  ghost predicate Orders<T>(s: set<T>, lt: (T, T) -> bool)
  {
    && (forall a, b, c :: a in s && b in s && c in s && lt(a, b) && lt(b, c) ==> lt(a, c))
    && (forall a, b :: a in s && b in s && a != b ==> lt(a, b) || lt(b, a))
  }

  lemma {:induction false} LastOf<T>(s: set<T>, lt: (T, T) -> bool) returns (m: T)
    requires s != {} && Orders(s, lt)
    ensures m in s && forall x :: x in s && x != m ==> lt(x, m)
    decreases |s|
  {
    m :| m in s;
    var rest := s - {m};
    if rest != {} {
      var r := LastOf(rest, lt);
      assert forall x :: x in s ==> x == m || x in rest;
      if lt(m, r) {
        m := r;
      }
    } else {
      assert forall x :: x in s ==> x == m || x in rest;
    }
  }

  lemma {:induction false} Listing<T>(s: set<T>, lt: (T, T) -> bool) returns (xs: seq<T>)
    requires Orders(s, lt)
    ensures (forall x :: x in xs <==> x in s) && forall i, j :: 0 <= i < j < |xs| ==> lt(xs[i], xs[j])
    decreases |s|
  {
    if s == {} {
      xs := [];
    } else {
      var m := LastOf(s, lt);
      var front := Listing(s - {m}, lt);
      xs := front + [m];
      forall i, j | 0 <= i < j < |xs|
        ensures lt(xs[i], xs[j])
      {
        assert xs[i] == front[i] && front[i] in front;
      }
    }
  }

  /** The entries of a memtable, sorted. */
  lemma Sort(s: set<Entry>) returns (es: seq<Entry>)
    requires Unique(s)
    ensures Merged(es) && EntrySet(es) == s
  {
    es := Listing(s, (a: Entry, b: Entry) => Less(a.key, b.key));
    forall i, j | 0 <= i < j < |es| && es[i].key.user == es[j].key.user
      ensures es[i].key.seqno > es[j].key.seqno
    {
      assert Less(es[i].key, es[j].key) && es[i] in s && es[j] in s;
    }
  }
}
