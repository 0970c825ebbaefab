/**
 The reference-counted LRU cache. A handle is an index into the allocated entries; the two circular
 lists run through their links, and as sequences they go from the oldest entry to the newest.
 */
module LRUCache {
  import opened Keys
  import opened CircularLists
  import H = HandleTable

  datatype Handle = Handle(key: Bytes, charge: nat, inCache: bool, refs: nat)

  /** The entries, the two lists, what clients hold, and the entries whose deleter has run, in order. */
  datatype State = State(
    handles: map<nat, Handle>, lru: seq<nat>, inUse: seq<nat>, usage: nat,
    clients: map<nat, nat>, deleted: seq<nat>, next: nat)

  // Lists without duplicates

  function ChargeOf(hs: map<nat, Handle>, id: nat): nat {
    if id in hs then hs[id].charge else 0
  }

  function Charge(hs: map<nat, Handle>, l: seq<nat>): nat {
    if l == [] then 0 else ChargeOf(hs, l[0]) + Charge(hs, l[1..])
  }

  lemma {:induction false} WithoutIs(hs: map<nat, Handle>, l: seq<nat>, x: nat)
    requires NoDup(l) && x in l
    ensures NoDup(Without(l, x)) && (forall y :: y in Without(l, x) <==> y in l && y != x)
    ensures Charge(hs, Without(l, x)) + ChargeOf(hs, x) == Charge(hs, l)
    decreases |l|
  {
    assert l == [l[0]] + l[1..];
    if l[0] != x {
      WithoutIs(hs, l[1..], x);
      var r := Without(l[1..], x);
      assert forall i :: 0 <= i < |r| ==> r[i] in l[1..];
      assert ([l[0]] + r)[1..] == r;
    }
  }

  lemma {:induction false} ChargeAppend(hs: map<nat, Handle>, l: seq<nat>, x: nat)
    ensures Charge(hs, l + [x]) == Charge(hs, l) + ChargeOf(hs, x)
    decreases |l|
  {
    if l == [] {
      assert l + [x] == [x] && [x][1..] == [];
    } else {
      assert (l + [x])[1..] == l[1..] + [x];
      ChargeAppend(hs, l[1..], x);
    }
  }

  lemma {:induction false} ChargeSame(hs: map<nat, Handle>, hs': map<nat, Handle>, l: seq<nat>)
    requires forall x :: x in l ==> ChargeOf(hs, x) == ChargeOf(hs', x)
    ensures Charge(hs, l) == Charge(hs', l)
    decreases |l|
  {
    if l != [] {
      ChargeSame(hs, hs', l[1..]);
    }
  }

  // The invariant

  /** How many references to an entry clients hold. */
  ghost function Held(clients: map<nat, nat>, x: nat): nat {
    if x in clients then clients[x] else 0
  }

  /**
   Every cached entry is in exactly one list: the LRU list if only the cache refers to it, the in-use list
   otherwise.
   */
  ghost predicate ListsOk(s: State) {
    && NoDup(s.lru) && NoDup(s.inUse)
    && (forall x :: x in s.lru ==> x in s.handles && s.handles[x].inCache && s.handles[x].refs == 1)
    && (forall x :: x in s.inUse ==> x in s.handles && s.handles[x].inCache && s.handles[x].refs >= 2)
    && (forall x :: x in s.handles && s.handles[x].inCache ==> x in s.lru || x in s.inUse)
  }

  /** References are those of clients and the cache's own. */
  ghost predicate RefsOk(s: State) {
    && (forall x :: x in s.handles ==> s.handles[x].refs == Held(s.clients, x) + if s.handles[x].inCache then 1 else 0)
    && (forall x :: x in s.handles ==> s.handles[x].refs > 0)
    && (forall x :: Held(s.clients, x) > 0 ==> x in s.handles)
  }

  ghost predicate UsageOk(s: State) {
    s.usage == Charge(s.handles, s.lru) + Charge(s.handles, s.inUse)
  }

  /** Every entry ever allocated is alive or has been deleted, once. */
  ghost predicate DeletedOk(s: State) {
    && NoDup(s.deleted) && (forall x :: x in s.handles || x in s.deleted <==> 0 <= x < s.next)
    && (forall x :: x in s.handles ==> x !in s.deleted)
  }

  ghost predicate Ok(s: State) {
    ListsOk(s) && RefsOk(s) && UsageOk(s) && DeletedOk(s)
  }

  // The primitives

  /** One more client reference, and one less. */
  ghost function Give(clients: map<nat, nat>, x: nat): map<nat, nat> {
    clients[x := Held(clients, x) + 1]
  }

  ghost function Take(clients: map<nat, nat>, x: nat): map<nat, nat> {
    if Held(clients, x) > 0 then clients[x := Held(clients, x) - 1] else clients
  }

  function Drop(handles: map<nat, Handle>, x: nat): map<nat, Handle> {
    handles - {x}
  }

  function Put(handles: map<nat, Handle>, x: nat, h: Handle): map<nat, Handle> {
    handles[x := h]
  }

  function Removed(s: State, x: nat): State {
    if x in s.lru then s.(lru := Without(s.lru, x)) else s.(inUse := Without(s.inUse, x))
  }

  ghost function Referenced(s: State, x: nat): State
    requires x in s.handles
  {
    var h := s.handles[x];
    var t := if h.refs == 1 && h.inCache then Removed(s, x).(inUse := s.inUse + [x]) else s;
    t.(handles := Put(t.handles, x, h.(refs := h.refs + 1)), clients := Give(t.clients, x))
  }

  ghost function Unreferenced(s: State, x: nat): State
    requires x in s.handles && s.handles[x].refs > 0
  {
    var h := s.handles[x].(refs := s.handles[x].refs - 1);
    var t := s.(clients := Take(s.clients, x));
    if h.refs == 0 then t.(handles := Drop(t.handles, x), deleted := t.deleted + [x])
    else if h.inCache && h.refs == 1 then
      var u := Removed(t, x);
      u.(handles := Put(t.handles, x, h), lru := u.lru + [x])
    else t.(handles := Put(t.handles, x, h))
  }

  /** Clients hold `n` references more to one entry, and as many as before to every other. */
  ghost predicate Holds(was: map<nat, nat>, now: map<nat, nat>, x: nat, n: nat) {
    forall y :: Held(now, y) == Held(was, y) + if y == x then n else 0
  }

  /** Takes an entry out of the lists; the cache's reference passes to the caller. */
  ghost function Detached(s: State, x: nat): State
    requires x in s.handles && s.usage >= s.handles[x].charge
  {
    var t := Removed(s, x);
    t.(handles := Put(t.handles, x, t.handles[x].(inCache := false)), usage := t.usage - s.handles[x].charge,
    clients := Give(t.clients, x))
  }

  /** A new entry that a client holds; cached if there is any capacity. */
  ghost function Allocated(s: State, key: Bytes, charge: nat, cached: bool): State {
    var x := s.next;
    var t := s.(next := x + 1, clients := Give(s.clients, x));
    if cached then t.(handles := Put(t.handles, x, Handle(key, charge, true, 2)), inUse := t.inUse + [x],
                   usage := t.usage + charge)
    else t.(handles := Put(t.handles, x, Handle(key, charge, false, 1)))
  }

  // Each primitive keeps each part of the invariant

  lemma SameCharges(s: State, hs': map<nat, Handle>, l: seq<nat>)
    requires forall y :: y in l ==> ChargeOf(hs', y) == ChargeOf(s.handles, y)
    ensures Charge(hs', l) == Charge(s.handles, l)
  {
    ChargeSame(s.handles, hs', l);
  }

  lemma RefKeeps(s: State, x: nat)
    requires Ok(s) && x in s.handles
    ensures Ok(Referenced(s, x))
  {
    hide ListsOk, UsageOk, DeletedOk, RefsOk;
    RefUsage(s, x);
    RefRefs(s, x);
    RefLists(s, x);
    RefDeleted(s, x);
  }

  lemma RefLists(s: State, x: nat)
    requires ListsOk(s) && x in s.handles && s.handles[x].refs > 0
    ensures ListsOk(Referenced(s, x))
  {
    hide Without;
    if s.handles[x].refs == 1 && s.handles[x].inCache {
      WithoutIs(s.handles, s.lru, x);
    }
  }

  lemma RefRefs(s: State, x: nat)
    requires RefsOk(s) && x in s.handles
    ensures RefsOk(Referenced(s, x)) && s.handles[x].refs > 0
  {
  }

  lemma RefDeleted(s: State, x: nat)
    requires DeletedOk(s) && x in s.handles
    ensures DeletedOk(Referenced(s, x))
  {
  }

  lemma RefUsage(s: State, x: nat)
    requires ListsOk(s) && UsageOk(s) && x in s.handles
    ensures UsageOk(Referenced(s, x))
  {
    hide Charge, Without, NoDup;
    var s' := Referenced(s, x);
    assert forall y :: ChargeOf(s'.handles, y) == ChargeOf(s.handles, y);
    SameCharges(s, s'.handles, s'.lru);
    SameCharges(s, s'.handles, s'.inUse);
    if s.handles[x].refs == 1 && s.handles[x].inCache {
      WithoutIs(s.handles, s.lru, x);
      ChargeAppend(s.handles, s.inUse, x);
    }
  }

  lemma UnrefKeeps(s: State, x: nat)
    requires Ok(s) && Held(s.clients, x) > 0
    ensures x in s.handles && Ok(Unreferenced(s, x))
  {
    hide ListsOk, UsageOk, DeletedOk;
    UnrefUsage(s, x);
    UnrefLists(s, x);
    UnrefDeleted(s, x);
  }

  lemma UnrefLists(s: State, x: nat)
    requires Ok(s) && Held(s.clients, x) > 0 && x in s.handles
    ensures ListsOk(Unreferenced(s, x))
  {
    hide UsageOk, DeletedOk, Charge, Without;
    assert s.handles[x].refs == Held(s.clients, x) + if s.handles[x].inCache then 1 else 0;
    hide RefsOk;
    if s.handles[x].inCache && s.handles[x].refs == 2 {
      WithoutIs(s.handles, s.inUse, x);
    }
  }

  lemma UnrefDeleted(s: State, x: nat)
    requires Ok(s) && x in s.handles
    ensures DeletedOk(Unreferenced(s, x))
  {
    hide UsageOk, ListsOk, RefsOk;
  }

  lemma UnrefUsage(s: State, x: nat)
    requires Ok(s) && Held(s.clients, x) > 0 && x in s.handles
    ensures UsageOk(Unreferenced(s, x))
  {
    hide Charge, Without, DeletedOk, NoDup;
    var s' := Unreferenced(s, x);
    assert s.handles[x].refs == Held(s.clients, x) + if s.handles[x].inCache then 1 else 0;
    hide RefsOk;
    if s.handles[x].refs == 1 {
      SameCharges(s, s'.handles, s.lru);
      SameCharges(s, s'.handles, s.inUse);
    } else {
      assert forall y :: ChargeOf(s'.handles, y) == ChargeOf(s.handles, y);
      SameCharges(s, s'.handles, s'.lru);
      SameCharges(s, s'.handles, s'.inUse);
      if s.handles[x].inCache && s.handles[x].refs == 2 {
        WithoutIs(s.handles, s.inUse, x);
        ChargeAppend(s.handles, s.lru, x);
      }
    }
  }

  lemma DetachKeeps(s: State, x: nat)
    requires Ok(s) && x in s.handles && s.handles[x].inCache
    ensures s.usage >= s.handles[x].charge && Ok(Detached(s, x))
  {
    hide ListsOk, UsageOk, DeletedOk, RefsOk;
    DetachUsage(s, x);
    DetachLists(s, x);
    DetachRefs(s, x);
    DetachDeleted(s, x);
  }

  lemma DetachRefs(s: State, x: nat)
    requires RefsOk(s) && x in s.handles && s.handles[x].inCache && s.usage >= s.handles[x].charge
    ensures RefsOk(Detached(s, x))
  {
  }

  lemma DetachDeleted(s: State, x: nat)
    requires DeletedOk(s) && x in s.handles && s.usage >= s.handles[x].charge
    ensures DeletedOk(Detached(s, x))
  {
  }

  lemma DetachUsage(s: State, x: nat)
    requires ListsOk(s) && UsageOk(s) && x in s.handles && s.handles[x].inCache
    ensures s.usage >= s.handles[x].charge && UsageOk(Detached(s, x))
  {
    hide Charge, Without;
    assert NoDup(s.lru) && NoDup(s.inUse);
    hide NoDup;
    WithoutIs(s.handles, if x in s.lru then s.lru else s.inUse, x);
    var s' := Detached(s, x);
    assert forall y :: ChargeOf(s'.handles, y) == ChargeOf(s.handles, y);
    SameCharges(s, s'.handles, s'.lru);
    SameCharges(s, s'.handles, s'.inUse);
  }

  lemma DetachLists(s: State, x: nat)
    requires ListsOk(s) && x in s.handles && s.handles[x].inCache && s.usage >= s.handles[x].charge
    ensures ListsOk(Detached(s, x))
  {
    hide Charge, Without;
    WithoutIs(s.handles, if x in s.lru then s.lru else s.inUse, x);
  }

  lemma AllocateKeeps(s: State, key: Bytes, charge: nat, cached: bool)
    requires Ok(s)
    ensures Ok(Allocated(s, key, charge, cached))
  {
    hide ListsOk, UsageOk, RefsOk;
    assert s.next !in s.handles;
    hide DeletedOk;
    AllocateUsage(s, key, charge, cached);
    AllocateLists(s, key, charge, cached);
    AllocateRefs(s, key, charge, cached);
    AllocateDeleted(s, key, charge, cached);
  }

  lemma AllocateLists(s: State, key: Bytes, charge: nat, cached: bool)
    requires ListsOk(s) && s.next !in s.handles
    ensures ListsOk(Allocated(s, key, charge, cached))
  {
  }

  lemma AllocateRefs(s: State, key: Bytes, charge: nat, cached: bool)
    requires RefsOk(s) && s.next !in s.handles
    ensures RefsOk(Allocated(s, key, charge, cached))
  {
  }

  lemma AllocateDeleted(s: State, key: Bytes, charge: nat, cached: bool)
    requires DeletedOk(s)
    ensures DeletedOk(Allocated(s, key, charge, cached))
  {
  }

  lemma AllocateUsage(s: State, key: Bytes, charge: nat, cached: bool)
    requires ListsOk(s) && UsageOk(s) && s.next !in s.handles
    ensures UsageOk(Allocated(s, key, charge, cached))
  {
    hide Charge, NoDup;
    var s' := Allocated(s, key, charge, cached);
    SameCharges(s, s'.handles, s.lru);
    SameCharges(s, s'.handles, s.inUse);
    ChargeAppend(s'.handles, s.inUse, s.next);
  }

  // The cache

  ghost predicate Cached(s: State, key: Bytes, x: nat) {
    x in s.handles && s.handles[x].inCache && s.handles[x].key == key
  }

  /** The hash table is the map from keys to cached entries. */
  ghost predicate Matches(s: State, contents: map<Bytes, nat>) {
    forall key, x: nat :: (key in contents && contents[key] == x) <==> Cached(s, key, x)
  }

  /** What finishing an erase does: the entry leaves the cache and the cache gives up its reference. */
  ghost function Erased(s: State, x: nat): State
    requires Ok(s) && x in s.handles && s.handles[x].inCache
  {
    DetachKeeps(s, x);
    UnrefKeeps(Detached(s, x), x);
    Unreferenced(Detached(s, x), x)
  }

  lemma ErasedIs(s: State, x: nat)
    requires Ok(s) && x in s.handles && s.handles[x].inCache
    ensures var s' := Erased(s, x);
            && Ok(s') && s'.usage + s.handles[x].charge == s.usage
            && (forall y :: Held(s'.clients, y) == Held(s.clients, y)) && s'.next == s.next
            && (x in s'.handles ==> !s'.handles[x].inCache)
            && s'.lru == (if x in s.lru then Without(s.lru, x) else s.lru)
            && (forall y :: y != x ==> (y in s'.handles <==> y in s.handles))
            && (forall y :: y != x && y in s.handles ==> s'.handles[y] == s.handles[y])
  {
    hide ListsOk, UsageOk, DeletedOk, RefsOk, Without;
    DetachKeeps(s, x);
    UnrefKeeps(Detached(s, x), x);
    assert forall y :: Held(Take(Give(s.clients, x), x), y) == Held(s.clients, y);
  }

  lemma EmptyOk(s: State, contents: map<Bytes, nat>)
    requires s.handles == map[] && s.lru == [] && s.inUse == [] && s.usage == 0 && s.clients == map[] && s.deleted == []
    requires s.next == 0
    requires contents == map[]
    ensures Ok(s) && Matches(s, contents)
  {
  }

  class LRUCache {
    const table: H.HandleTable
    var capacity: nat
    var usage: nat
    var handles: map<nat, Handle>
    var links: Links
    var next: nat
    ghost var lru: seq<nat>
    ghost var inUse: seq<nat>
    ghost var clients: map<nat, nat>
    ghost var deleted: seq<nat>

    ghost function View(): State
      reads this
    {
      State(handles, lru, inUse, usage, clients, deleted, next)
    }

    ghost predicate Valid()
      reads this, table
    {
      Ok(View()) && Linked() && table.Valid() && Matches(View(), table.contents)
    }

    /** The links go around both lists. */
    ghost predicate Linked()
      reads this
    {
      Ring(links, LruHead, lru) && Ring(links, InUseHead, inUse)
    }

    constructor (hash: H.Hash, capacity: nat)
      ensures Valid() && handles == map[] && clients == map[] && deleted == [] && usage == 0 && fresh(table)
      ensures this.capacity == capacity
    {
      hide Ok, Matches, H.ListOk, H.Represents, H.Total, H.Linked;
      table := new H.HandleTable(hash);
      this.capacity := capacity;
      usage, handles, links, next := 0, map[], EMPTY, 0;
      clients, deleted, lru, inUse := map[], [], [], [];
      new;
      EmptyRings();
      EmptyOk(View(), table.contents);
    }

    /** Takes a cached entry out of its list. */
    method Remove(x: nat)
      requires NoDup(lru) && NoDup(inUse) && (forall y :: y in lru ==> y !in inUse) && Linked()
      requires x in lru || x in inUse
      modifies `links, `lru, `inUse
      ensures View() == Removed(old(View()), x) && Linked()
      ensures lru == Minus(old(lru), x) && inUse == if x in old(lru) then old(inUse) else Minus(old(inUse), x)
    {
      hide Ring, Without, NoDup;
      if x in lru {
        UnlinkRing(links, LruHead, lru, x);
        UnlinkOther(links, LruHead, lru, x, InUseHead, inUse);
      } else {
        UnlinkRing(links, InUseHead, inUse, x);
        UnlinkOther(links, InUseHead, inUse, x, LruHead, lru);
      }
      links := Unlinked(links, Item(x));
      if x in lru {
        lru := Without(lru, x);
      } else {
        inUse := Without(inUse, x);
      }
    }

    /** Makes an entry the newest of the in-use list. */
    method AppendInUse(x: nat)
      requires Linked() && NoDup(inUse) && x !in lru && x !in inUse && forall y :: y in inUse ==> y !in lru
      modifies `links, `inUse
      ensures inUse == old(inUse) + [x] && Linked()
    {
      hide Ring;
      AppendRing(links, InUseHead, inUse, x);
      AppendOther(links, InUseHead, inUse, x, LruHead, lru);
      links := Appended(links, InUseHead, Item(x));
      inUse := inUse + [x];
    }

    /** Makes an entry the newest of the LRU list. */
    method AppendLru(x: nat)
      requires Linked() && NoDup(lru) && x !in lru && x !in inUse && forall y :: y in lru ==> y !in inUse
      modifies `links, `lru
      ensures lru == old(lru) + [x] && Linked()
    {
      hide Ring;
      AppendRing(links, LruHead, lru, x);
      AppendOther(links, LruHead, lru, x, InUseHead, inUse);
      links := Appended(links, LruHead, Item(x));
      lru := lru + [x];
    }

    method Ref(x: nat)
      requires Ok(View()) && Linked() && x in handles
      modifies this
      ensures View() == Referenced(old(View()), x) && Ok(View()) && Linked() && capacity == old(capacity)
    {
      hide Ok, ListsOk, NoDup, Removed, Without, Give, Take, Drop, Put, H.ListOk, H.Represents, H.Total, Ring;
      hide Minus;
      RefKeeps(View(), x);
      if handles[x].refs == 1 && handles[x].inCache {
        RefInLru(View(), x);
        RemovedApart(View(), x);
      }
      if handles[x].refs == 1 && handles[x].inCache {
        Remove(x);
        AppendInUse(x);
      }
      handles := Put(handles, x, handles[x].(refs := handles[x].refs + 1));
      clients := Give(clients, x);
    }

    method Unref(x: nat)
      requires Ok(View()) && Linked() && Held(clients, x) > 0 && x in handles && handles[x].refs > 0
      modifies this
      ensures View() == Unreferenced(old(View()), x) && Ok(View()) && Linked() && capacity == old(capacity)
    {
      hide Ok, ListsOk, NoDup, Removed, Unreferenced, Without, Give, Take, Drop, Put, H.ListOk, H.Represents, H.Total;
      hide Ring, Minus;
      UnrefKeeps(View(), x);
      UnrefCases(View(), x);
      if handles[x].refs == 2 && handles[x].inCache {
        UnrefInUse(View(), x);
        RemovedApart(View(), x);
      }
      var h := handles[x].(refs := handles[x].refs - 1);
      clients := Take(clients, x);
      if h.refs == 0 {
        handles := Drop(handles, x);
        deleted := deleted + [x];
      } else if h.inCache && h.refs == 1 {
        Remove(x);
        AppendLru(x);
        handles := Put(handles, x, h);
      } else {
        handles := Put(handles, x, h);
      }
    }

    /** Takes an entry off its list; its reference is then the caller's. */
    method Detach(x: nat)
      requires Ok(View()) && Linked() && x in handles && handles[x].inCache && usage >= handles[x].charge
      modifies this
      ensures View() == Detached(old(View()), x) && Linked() && capacity == old(capacity)
    {
      assert x in lru || x in inUse;
      RemovedApart(View(), x);
      hide Ok, ListsOk, Without, Removed, Give, Put, Ring;
      var charge := handles[x].charge;
      Remove(x);
      handles := Put(handles, x, handles[x].(inCache := false));
      usage := usage - charge;
      clients := Give(clients, x);
    }

    /** Finishes removing an entry that is no longer in the hash table. */
    method FinishErase(x: nat)
      requires Ok(View()) && Linked() && x in handles && handles[x].inCache
      modifies this
      ensures View() == Erased(old(View()), x) && Ok(View()) && Linked() && capacity == old(capacity)
    {
      DetachKeeps(View(), x);
      UnrefKeeps(Detached(View(), x), x);
      RefsOfClient(Detached(View(), x), x);
      hide Ok, Unreferenced, Detached, Linked;
      Detach(x);
      Unref(x);
    }

    method Lookup(key: Bytes) returns (r: Option<nat>)
      requires Valid()
      modifies this
      ensures Valid() && capacity == old(capacity)
      ensures r.Some? <==> key in table.contents
      ensures r.Some? ==> r.value == table.contents[key] && r.value in old(handles)
      ensures r.Some? ==> View() == Referenced(old(View()), r.value) && handles[r.value].key == key
      ensures r.Some? ==> Holds(old(clients), clients, r.value, 1) && r.value !in lru
      ensures r.None? ==> View() == old(View())
    {
      hide Ok, Referenced, Matches;
      r := table.Lookup(key);
      if r.Some? {
        Found(View(), table.contents, key);
        RefMatches(View(), r.value, table.contents);
        Ref(r.value);
        ReferredTo(old(View()), r.value);
      }
    }

    method Release(x: nat)
      requires Valid() && Held(clients, x) > 0
      modifies this
      ensures Valid() && clients == Take(old(clients), x) && capacity == old(capacity)
      ensures Holds(clients, old(clients), x, 1)
      ensures table.contents == old(table.contents) && x in old(handles)
      ensures lru == if old(handles)[x].inCache && Held(old(clients), x) == 1 then old(lru) + [x] else old(lru)
    {
      RefsOfClient(View(), x);
      ReleasedOrder(View(), x);
      UnrefMatches(View(), x, table.contents);
      Unref(x);
    }

    /** Removes an entry from the hash table and from the cache. */
    method EraseEntry(key: Bytes)
      requires Valid() && key in table.contents
      modifies this, table
      ensures Valid() && table.contents == old(table.contents) - {key} && capacity == old(capacity)
      ensures old(table.contents)[key] in old(handles) && Ok(old(View()))
      ensures old(handles)[old(table.contents)[key]].inCache
      ensures View() == Erased(old(View()), old(table.contents)[key])
    {
      hide Ok, Matches, Erased;
      Found(View(), table.contents, key);
      EraseMatches(View(), table.contents, key);
      var x := table.Remove(key);
      FinishErase(x.value);
    }

    method Erase(key: Bytes)
      requires Valid()
      modifies this, table
      ensures Valid() && table.contents == old(table.contents) - {key} && capacity == old(capacity)
      ensures forall x :: Held(clients, x) == Held(old(clients), x)
    {
      if key in table.contents {
        Found(View(), table.contents, key);
        ErasedIs(View(), table.contents[key]);
        EraseMatches(View(), table.contents, key);
      }
      hide Ok, Matches, Erased, Ring;
      var x := table.Remove(key);
      if x.Some? {
        FinishErase(x.value);
      }
    }

    /** Evicts the oldest entry that only the cache refers to. */
    method EvictOldest()
      requires Valid() && lru != []
      modifies this, table
      ensures Valid() && capacity == old(capacity) && next == old(next) && lru == old(lru)[1..]
      ensures forall x :: Held(clients, x) == Held(old(clients), x)
      ensures Held(clients, old(lru)[0]) == 0 && old(lru)[0] in old(handles)
      ensures forall x :: x in old(handles) && x != old(lru)[0] ==> x in handles && handles[x] == old(handles)[x]
      ensures usage + ChargeOf(old(handles), old(lru)[0]) == old(usage)
      ensures Unmapped(old(table.contents), table.contents, old(lru), lru)
    {
      ghost var s := View();
      OldestIs(s, table.contents);
      OldestUnmapped(s, table.contents);
      AfterHead(links, LruHead, lru);
      var x := links.next[LruHead].id;
      ErasedIs(s, x);
      FirstOut(lru);
      hide Ok, Matches, Erased, Without, Ring, Unmapped;
      EraseEntry(handles[x].key);
    }

    /**
     Allocates an entry for the client and, if there is any capacity, puts it in the cache in place of one
     with its key.
     */
    method AddEntry(key: Bytes, charge: nat) returns (x: nat)
      requires Valid()
      modifies this, table
      ensures Valid() && capacity == old(capacity) && x == old(next) && Holds(old(clients), clients, x, 1)
      ensures x in handles && handles[x] == Handle(key, charge, capacity > 0, if capacity > 0 then 2 else 1)
      ensures table.contents == if capacity > 0 then old(table.contents)[key := x] else old(table.contents)
      ensures x !in lru
      ensures lru == Survivors(old(lru), old(table.contents), key, capacity)
      ensures forall y :: y in lru ==> y in old(handles) && y in handles && handles[y] == old(handles)[y]
    {
      hide Ok, Matches, Erased, Allocated, Give, Held, Without, Holds, Ring, H.ListOk, H.Represents, H.Total;
      hide H.Linked, H.Injective;
      ghost var s := View();
      SurvivorsKept(s, table.contents, key, capacity);
      AllocatedLru(s, key, charge, capacity > 0);
      NewHandle(s, table.contents);
      AllocateKeeps(s, key, charge, capacity > 0);
      AllocatedIs(s, key, charge, capacity > 0);
      InsertMatches(s, key, charge, table.contents);
      x := Allocate(key, charge);
      if capacity > 0 {
        var replaced := table.Insert(key, x);
        if replaced.Some? {
          ghost var was := View();
          ErasedIs(was, replaced.value);
          FinishErase(replaced.value);
          StillHolds(s, was, View(), x);
        }
      }
    }

    method Allocate(key: Bytes, charge: nat) returns (x: nat)
      requires Ok(View()) && Linked()
      modifies this
      ensures x == old(next) && View() == Allocated(old(View()), key, charge, capacity > 0) && capacity == old(capacity)
      ensures Linked()
    {
      NewApart(View());
      hide Ok, Give, Put, Ring;
      x := next;
      next := next + 1;
      clients := Give(clients, x);
      if capacity > 0 {
        handles := Put(handles, x, Handle(key, charge, true, 2));
        AppendInUse(x);
        usage := usage + charge;
      } else {
        handles := Put(handles, x, Handle(key, charge, false, 1));
      }
    }

    /** Adds an entry and hands it to the client; evicts until the cache fits or nothing more can go. */
    method Insert(key: Bytes, charge: nat) returns (x: nat)
      requires Valid()
      modifies this, table
      ensures Valid() && capacity == old(capacity)
      ensures usage <= capacity || lru == []
      ensures x == old(next) && x in handles && handles[x].key == key && handles[x].charge == charge
      ensures Holds(old(clients), clients, x, 1)
      ensures if capacity > 0 then handles[x].inCache && key in table.contents && table.contents[key] == x
              else !handles[x].inCache
      ensures Unmapped(if capacity > 0 then old(table.contents)[key := x] else old(table.contents), table.contents,
                       Survivors(old(lru), old(table.contents), key, capacity), lru)
      ensures Evicted(Survivors(old(lru), old(table.contents), key, capacity), lru, old(handles), usage, capacity)
    {
      hide Ok, Matches, Survivors, Evicted, Unmapped, Ring, H.ListOk, H.Represents, H.Total, H.Linked, H.Injective;
      x := AddEntry(key, charge);
      ghost var base, hs, added := lru, old(handles), table.contents;
      NoneEvicted(base, hs, usage, capacity);
      NoneUnmapped(added, base);
      AfterHead(links, LruHead, lru);
      while usage > capacity && links.next[LruHead] != LruHead
        invariant LruHead in links.next && links.next[LruHead] == if lru == [] then LruHead else Item(lru[0])
        invariant Evicted(base, lru, hs, usage, capacity)
        invariant forall y :: y in lru ==> y in hs && y in handles && handles[y] == hs[y]
        invariant Valid() && capacity == old(capacity) && Holds(old(clients), clients, x, 1)
        invariant Unmapped(added, table.contents, base, lru) && x !in base && forall y :: y in lru ==> y in base
        invariant x in handles && handles[x] == Handle(key, charge, capacity > 0, if capacity > 0 then 2 else 1)
        decreases |lru|
      {
        ghost var lru0, usage0, oldest, was := lru, usage, ChargeOf(handles, lru[0]), table.contents;
        NotTwice(View());
        EvictOldest();
        EvictOneMore(base, lru0, hs, usage0, usage, capacity, oldest);
        UnmappedMore(added, was, table.contents, base, lru0, lru);
        AfterHead(links, LruHead, lru);
      }
      if capacity > 0 {
        StaysMapped(added, table.contents, base, lru, key);
      }
    }

    method Prune()
      requires Valid()
      modifies this, table
      ensures Valid() && lru == [] && capacity == old(capacity)
      ensures forall x :: Held(clients, x) == Held(old(clients), x)
      ensures Unmapped(old(table.contents), table.contents, old(lru), [])
    {
      hide Ok, Matches, Unmapped;
      AfterHead(links, LruHead, lru);
      NoneUnmapped(table.contents, lru);
      while links.next[LruHead] != LruHead
        invariant LruHead in links.next && links.next[LruHead] == if lru == [] then LruHead else Item(lru[0])
        invariant Unmapped(old(table.contents), table.contents, old(lru), lru) && forall y :: y in lru ==> y in old(lru)
        invariant Valid() && capacity == old(capacity) && forall x :: Held(clients, x) == Held(old(clients), x)
        decreases |lru|
      {
        ghost var was, lru0 := table.contents, lru;
        EvictOldest();
        UnmappedMore(old(table.contents), was, table.contents, old(lru), lru0, lru);
        AfterHead(links, LruHead, lru);
      }
    }
  }

  /** Keys whose entries went from the list have lost them; all others keep theirs. */
  ghost predicate Unmapped(was: map<Bytes, nat>, now: map<Bytes, nat>, base: seq<nat>, left: seq<nat>) {
    && (forall k :: k in now <==> k in was && (was[k] in base ==> was[k] in left))
    && (forall k :: k in now ==> now[k] == was[k])
  }

  lemma NoneUnmapped(contents: map<Bytes, nat>, base: seq<nat>)
    ensures Unmapped(contents, contents, base, base)
  {
  }

  lemma UnmappedMore(was: map<Bytes, nat>, now: map<Bytes, nat>, now': map<Bytes, nat>, base: seq<nat>,
                     lru: seq<nat>, lru': seq<nat>)
    requires Unmapped(was, now, base, lru) && Unmapped(now, now', lru, lru') && forall y :: y in lru ==> y in base
    requires lru != [] && lru' == lru[1..]
    ensures Unmapped(was, now', base, lru')
  {
  }

  lemma StaysMapped(was: map<Bytes, nat>, now: map<Bytes, nat>, base: seq<nat>, left: seq<nat>, key: Bytes)
    requires Unmapped(was, now, base, left) && key in was && was[key] !in base
    ensures key in now && now[key] == was[key]
  {
  }

  lemma OldestUnmapped(s: State, contents: map<Bytes, nat>)
    requires Ok(s) && Matches(s, contents) && s.lru != [] && s.lru[0] in s.handles
    ensures Unmapped(contents, contents - {s.handles[s.lru[0]].key}, s.lru, s.lru[1..])
  {
    OldestIs(s, contents);
    NotTwice(s);
    hide Ok;
    var x := s.lru[0];
    forall k | k in contents
      ensures contents[k] == x <==> k == s.handles[x].key
    {
      assert Cached(s, k, contents[k]);
    }
    assert s.lru == [x] + s.lru[1..];
  }

  lemma StillHolds(s: State, t: State, u: State, x: nat)
    requires Holds(s.clients, t.clients, x, 1) && forall y :: Held(u.clients, y) == Held(t.clients, y)
    ensures Holds(s.clients, u.clients, x, 1)
  {
  }

  lemma ReferredTo(s: State, x: nat)
    requires Ok(s) && x in s.handles && s.handles[x].inCache
    ensures Holds(s.clients, Referenced(s, x).clients, x, 1) && x !in Referenced(s, x).lru
  {
    RefKeeps(s, x);
  }

  /** Only the oldest entries are gone, and the last of them went while the usage was over capacity. */
  ghost predicate Evicted(base: seq<nat>, lru: seq<nat>, hs: map<nat, Handle>, usage: nat, capacity: nat) {
    var k := |base| - |lru|;
    k >= 0 && lru == base[k..] && (k > 0 ==> usage + ChargeOf(hs, base[k - 1]) > capacity)
  }

  lemma NoneEvicted(base: seq<nat>, hs: map<nat, Handle>, usage: nat, capacity: nat)
    ensures Evicted(base, base, hs, usage, capacity)
  {
  }

  lemma NotTwice(s: State)
    requires Ok(s) && s.lru != []
    ensures s.lru[0] !in s.lru[1..]
  {
  }

  lemma EvictOneMore(base: seq<nat>, lru: seq<nat>, hs: map<nat, Handle>, usage: nat, usage': nat, capacity: nat,
                     charge: nat)
    requires Evicted(base, lru, hs, usage, capacity) && usage > capacity && lru != [] && usage' + charge == usage
    requires charge == ChargeOf(hs, lru[0])
    ensures Evicted(base, lru[1..], hs, usage', capacity)
  {
  }

  lemma EraseMatches(s: State, contents: map<Bytes, nat>, key: Bytes)
    requires Ok(s) && Matches(s, contents) && key in contents && contents[key] in s.handles
    requires s.handles[contents[key]].inCache
    ensures Matches(Erased(s, contents[key]), contents - {key})
  {
    ErasedIs(s, contents[key]);
    hide Ok, Erased;
    var x, s' := contents[key], Erased(s, contents[key]);
    assert Cached(s, key, x);
    assert forall k, y: nat :: Cached(s', k, y) <==> y != x && Cached(s, k, y);
    OneKey(s, key, x);
    hide Cached, Held, ChargeOf;
    forall k, y: nat
      ensures (k in contents - {key} && contents[k] == y) <==> Cached(s', k, y)
    {
      assert (k in contents && contents[k] == y) <==> Cached(s, k, y);
      assert Cached(s, k, x) <==> k == key;
    }
  }

  lemma OneKey(s: State, key: Bytes, x: nat)
    requires Cached(s, key, x)
    ensures forall k :: Cached(s, k, x) <==> k == key
  {
  }

  lemma OldestIs(s: State, contents: map<Bytes, nat>)
    requires Ok(s) && Matches(s, contents) && s.lru != []
    ensures var x := s.lru[0];
            && x in s.handles && s.handles[x].inCache && s.handles[x].key in contents && contents[s.handles[x].key] == x
            && Held(s.clients, x) == 0
  {
    var x := s.lru[0];
    assert x in s.lru;
    assert Cached(s, s.handles[x].key, x);
  }

  lemma FirstOut(l: seq<nat>)
    requires l != []
    ensures Without(l, l[0]) == l[1..]
  {
  }

  /** The LRU list without the entry that a new one with its key replaces. */
  function Survivors(lru: seq<nat>, contents: map<Bytes, nat>, key: Bytes, capacity: nat): seq<nat> {
    if capacity > 0 && key in contents && contents[key] in lru then Without(lru, contents[key]) else lru
  }

  lemma SurvivorsKept(s: State, contents: map<Bytes, nat>, key: Bytes, capacity: nat)
    requires Ok(s)
    ensures forall y :: y in Survivors(s.lru, contents, key, capacity) ==>
                          y in s.handles && y in s.lru && y != s.next &&
                          (capacity > 0 && key in contents ==> y != contents[key])
  {
    assert s.next !in s.handles;
    if capacity > 0 && key in contents && contents[key] in s.lru {
      WithoutIs(s.handles, s.lru, contents[key]);
    }
  }

  lemma AllocatedIs(s: State, key: Bytes, charge: nat, cached: bool)
    requires Ok(s)
    ensures var s', x := Allocated(s, key, charge, cached), s.next;
            && x !in s.handles && s'.handles == s.handles[x := Handle(key, charge, cached, if cached then 2 else 1)]
            && Holds(s.clients, s'.clients, x, 1)
  {
  }

  /** No key is mapped to the next handle. */
  lemma NewHandle(s: State, contents: map<Bytes, nat>)
    requires Ok(s) && Matches(s, contents)
    ensures forall key :: key in contents ==> contents[key] != s.next
  {
    assert s.next !in s.handles;
    forall key | key in contents
      ensures contents[key] != s.next
    {
      Found(s, contents, key);
    }
  }

  lemma AllocatedLru(s: State, key: Bytes, charge: nat, cached: bool)
    ensures Allocated(s, key, charge, cached).lru == s.lru
  {
  }

  lemma InsertMatches(s: State, key: Bytes, charge: nat, contents: map<Bytes, nat>)
    requires Ok(s) && Matches(s, contents)
    ensures Matches(Allocated(s, key, charge, false), contents)
    ensures key !in contents ==> Matches(Allocated(s, key, charge, true), contents[key := s.next])
    ensures var t := Allocated(s, key, charge, true);
            key in contents ==>
              && Ok(t) && contents[key] in t.handles && t.handles[contents[key]].inCache && contents[key] != s.next
              && Matches(Erased(t, contents[key]), contents[key := s.next])
  {
    hide Ok, Allocated, Erased;
    AllocateKeeps(s, key, charge, true);
    AllocatedCached(s, key, charge);
    var t := Allocated(s, key, charge, true);
    if key in contents {
      assert Cached(s, key, contents[key]) && Cached(t, key, contents[key]);
      ReplaceMatches(s, t, key, contents);
    }
    hide Cached;
  }

  lemma AllocatedCached(s: State, key: Bytes, charge: nat)
    requires Ok(s)
    ensures s.next !in s.handles
    ensures forall k, y: nat :: Cached(Allocated(s, key, charge, false), k, y) <==> Cached(s, k, y)
    ensures forall k, y: nat :: Cached(Allocated(s, key, charge, true), k, y)
                                <==> Cached(s, k, y) || (k == key && y == s.next)
  {
    AllocatedIs(s, key, charge, true);
    AllocatedIs(s, key, charge, false);
    hide Ok, Allocated;
  }

  lemma ReplaceMatches(s: State, t: State, key: Bytes, contents: map<Bytes, nat>)
    requires Ok(t) && Matches(s, contents) && key in contents && Cached(t, key, contents[key]) && s.next !in s.handles
    requires forall k, y: nat :: Cached(t, k, y) <==> Cached(s, k, y) || (k == key && y == s.next)
    ensures contents[key] != s.next && Matches(Erased(t, contents[key]), contents[key := s.next])
  {
    var x := contents[key];
    assert Cached(s, key, x);
    OneKey(s, key, x);
    ErasedIs(t, x);
    hide Erased, Ok;
    var e := Erased(t, x);
    assert forall k, y: nat :: Cached(e, k, y) <==> y != x && Cached(t, k, y);
    assert x != s.next;
    hide Cached;
    forall k, y: nat
      ensures (k in contents[key := s.next] && contents[key := s.next][k] == y) <==> Cached(e, k, y)
    {
      assert (k in contents && contents[k] == y) <==> Cached(s, k, y);
      assert Cached(s, k, x) <==> k == key;
    }
  }

  /** Once clients have released everything and the cache is pruned, every entry's deleter has run, exactly once. */
  lemma AllDeleted(s: State)
    requires Ok(s) && s.lru == [] && forall x :: Held(s.clients, x) == 0
    ensures s.handles.Keys == {} && s.usage == 0 && NoDup(s.deleted) && forall x :: x in s.deleted <==> 0 <= x < s.next
  {
    assert forall x :: x in s.handles ==> s.handles[x].inCache;
    assert forall x :: x !in s.inUse;
    SomeMember(s.inUse);
  }

  lemma SomeMember(l: seq<nat>)
    ensures l != [] ==> exists x :: x in l
  {
    assert l != [] ==> l[0] in l;
  }

  /** Dropping a reference, case by case. */
  lemma UnrefCases(s: State, x: nat)
    requires x in s.handles && s.handles[x].refs > 0
    ensures var h, t, u := s.handles[x].(refs := s.handles[x].refs - 1), s.(clients := Take(s.clients, x)),
                           Unreferenced(s, x);
            && (h.refs == 0 ==> u == t.(handles := Drop(t.handles, x), deleted := t.deleted + [x]))
            && (h.refs == 1 && h.inCache ==>
                  u == Removed(t, x).(handles := Put(t.handles, x, h), lru := Removed(t, x).lru + [x]))
            && (h.refs > 1 || (h.refs == 1 && !h.inCache) ==> u == t.(handles := Put(t.handles, x, h)))
  {
    hide Removed;
  }

  lemma Found(s: State, contents: map<Bytes, nat>, key: Bytes)
    requires Matches(s, contents) && key in contents
    ensures contents[key] in s.handles && s.handles[contents[key]].inCache && s.handles[contents[key]].key == key
  {
    assert Cached(s, key, contents[key]);
  }

  lemma RefMatches(s: State, x: nat, contents: map<Bytes, nat>)
    requires Matches(s, contents) && x in s.handles
    ensures Matches(Referenced(s, x), contents) && x in Referenced(s, x).handles
    ensures Referenced(s, x).handles[x].key == s.handles[x].key
  {
    hide Without;
    assert forall k, y: nat :: Cached(Referenced(s, x), k, y) <==> Cached(s, k, y);
  }

  /** The lists have no entry in common. */
  lemma ListsApart(s: State)
    requires ListsOk(s)
    ensures (forall y :: y in s.lru ==> y !in s.inUse) && forall y :: y in s.inUse ==> y !in s.lru
  {
    forall y | y in s.lru
      ensures y !in s.inUse
    {
      assert s.handles[y].refs == 1;
    }
  }

  /** The list without the entry, if it is in there. */
  function Minus(l: seq<nat>, x: nat): seq<nat> {
    if x in l then Without(l, x) else l
  }

  lemma RemovedApart(s: State, x: nat)
    requires Ok(s) && (x in s.lru || x in s.inUse)
    ensures NoDup(s.lru) && NoDup(s.inUse) && forall y :: y in s.lru ==> y !in s.inUse
    ensures var lru, inUse := Minus(s.lru, x), if x in s.lru then s.inUse else Minus(s.inUse, x);
            && NoDup(lru) && NoDup(inUse) && x !in lru && x !in inUse
            && (forall y :: y in lru ==> y !in inUse) && forall y :: y in inUse ==> y !in lru
  {
    ListsApart(s);
    WithoutIs(s.handles, if x in s.lru then s.lru else s.inUse, x);
  }

  lemma NewApart(s: State)
    requires Ok(s)
    ensures NoDup(s.inUse) && s.next !in s.lru && s.next !in s.inUse && forall y :: y in s.inUse ==> y !in s.lru
  {
    ListsApart(s);
    assert s.next !in s.handles;
  }

  lemma UnrefInUse(s: State, x: nat)
    requires Ok(s) && x in s.handles && s.handles[x].inCache && s.handles[x].refs == 2
    ensures x in s.inUse
  {
  }

  lemma RefInLru(s: State, x: nat)
    requires Ok(s) && x in s.handles && s.handles[x].inCache && s.handles[x].refs == 1
    ensures x in s.lru
  {
  }

  /** An entry whose last client lets go becomes the newest of the LRU list. */
  lemma ReleasedOrder(s: State, x: nat)
    requires Ok(s) && Held(s.clients, x) > 0 && x in s.handles && s.handles[x].refs > 0
    ensures Unreferenced(s, x).lru == if s.handles[x].inCache && Held(s.clients, x) == 1 then s.lru + [x] else s.lru
  {
    hide Without, UsageOk, DeletedOk;
    assert s.handles[x].refs == Held(s.clients, x) + if s.handles[x].inCache then 1 else 0;
    assert x !in s.lru;
    hide RefsOk, ListsOk;
  }

  lemma RefsOfClient(s: State, x: nat)
    requires Ok(s) && Held(s.clients, x) > 0
    ensures x in s.handles && s.handles[x].refs > 0
  {
  }

  lemma UnrefMatches(s: State, x: nat, contents: map<Bytes, nat>)
    requires Ok(s) && Held(s.clients, x) > 0 && x in s.handles && Matches(s, contents) && s.handles[x].refs > 0
    ensures Matches(Unreferenced(s, x), contents)
  {
    hide Without;
    assert s.handles[x].refs == 1 ==> !s.handles[x].inCache;
    assert forall k, y: nat :: Cached(Unreferenced(s, x), k, y) <==> Cached(s, k, y);
  }
}
