/**
 What a read means: among all entries of a user key with a sequence number at or below the
 snapshot, the one with the largest sequence number decides.
 */
module Reads {
  import opened Keys

  predicate Visible(e: Entry, user: Bytes, snapshot: nat)
  {
    e.key.user == user && e.key.seqno <= snapshot
  }

  ghost predicate IsNewest(s: set<Entry>, user: Bytes, snapshot: nat, e: Entry)
  {
    e in s && Visible(e, user, snapshot) &&
    forall o :: o in s && Visible(o, user, snapshot) ==> o.key.seqno <= e.key.seqno
  }

  /** No two entries of a user key share a sequence number. */
  ghost predicate Unique(s: set<Entry>)
  {
    forall a, b :: a in s && b in s && a.key.user == b.key.user && a.key.seqno == b.key.seqno ==> a == b
  }

  /** Every entry of `s` is newer than every entry of `t` with the same user key. */
  ghost predicate NewerThan(s: set<Entry>, t: set<Entry>)
  {
    forall a, b :: a in s && b in t && a.key.user == b.key.user ==> a.key.seqno > b.key.seqno
  }

  ghost predicate Found(s: set<Entry>, user: Bytes, snapshot: nat)
  {
    exists e :: e in s && Visible(e, user, snapshot)
  }

  function ValueOf(e: Entry): Option<Bytes>
  {
    if e.key.kind.Value? then Some(e.value) else None
  }

  /** The value of `user` at `snapshot`, or None when it is absent or deleted. */
  ghost function Read(s: set<Entry>, user: Bytes, snapshot: nat): Option<Bytes>
  {
    if e :| IsNewest(s, user, snapshot, e) then ValueOf(e) else None
  }

  lemma {:induction false} NewestExists(s: set<Entry>, user: Bytes, snapshot: nat)
    requires Found(s, user, snapshot)
    ensures exists e :: IsNewest(s, user, snapshot, e)
    decreases |s|
  {
    var x :| x in s && Visible(x, user, snapshot);
    var rest := s - {x};
    if Found(rest, user, snapshot) {
      NewestExists(rest, user, snapshot);
      var y :| IsNewest(rest, user, snapshot, y);
      var m := if x.key.seqno >= y.key.seqno then x else y;
      assert forall o :: o in s ==> o == x || o in rest;
      assert IsNewest(s, user, snapshot, m);
    } else {
      assert forall o :: o in s && Visible(o, user, snapshot) ==> o == x || o in rest;
      assert IsNewest(s, user, snapshot, x);
    }
  }

  /** A newest entry, when there is one, is what a read returns. */
  lemma ReadIs(s: set<Entry>, user: Bytes, snapshot: nat, e: Entry)
    requires Unique(s) && IsNewest(s, user, snapshot, e)
    ensures Read(s, user, snapshot) == ValueOf(e)
  {
    var x :| IsNewest(s, user, snapshot, x) && Read(s, user, snapshot) == ValueOf(x);
    assert IsNewest(s, user, snapshot, x);
    assert x in s;
    assert Visible(x, user, snapshot) && Visible(e, user, snapshot);
    assert x.key.seqno <= e.key.seqno <= x.key.seqno;
  }

  /** Two sets with the same visible entries of a user key read the same. */
  lemma ReadAgrees(s: set<Entry>, t: set<Entry>, user: Bytes, snapshot: nat)
    requires Unique(s) && Unique(t)
    requires forall e :: Visible(e, user, snapshot) ==> (e in s <==> e in t)
    ensures Read(s, user, snapshot) == Read(t, user, snapshot)
  {
    if Found(s, user, snapshot) {
      NewestExists(s, user, snapshot);
      var e :| IsNewest(s, user, snapshot, e);
      assert IsNewest(t, user, snapshot, e);
      ReadIs(s, user, snapshot, e);
      ReadIs(t, user, snapshot, e);
    }
  }

  /** Newer layers hide older ones: a read consults the older layer only on a miss. */
  lemma ReadLayers(top: set<Entry>, below: set<Entry>, user: Bytes, snapshot: nat)
    requires Unique(top + below) && NewerThan(top, below)
    ensures Read(top + below, user, snapshot) ==
            if Found(top, user, snapshot) then Read(top, user, snapshot) else Read(below, user, snapshot)
  {
    if Found(top, user, snapshot) {
      NewestExists(top, user, snapshot);
      var e :| IsNewest(top, user, snapshot, e);
      assert IsNewest(top + below, user, snapshot, e);
      ReadIs(top, user, snapshot, e);
      ReadIs(top + below, user, snapshot, e);
    } else {
      ReadAgrees(top + below, below, user, snapshot);
    }
  }
}
