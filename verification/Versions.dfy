/**
 Table files, versions (the files of each level) and the point lookup over a version.
 */
module Versions {
  import opened Keys
  import opened Reads
  import opened Drops

  const NUM_LEVELS: nat := 7

  /** A table file: its number, its size, its key range and the entries it holds. */
  datatype File = File(number: nat, size: nat, smallest: IKey, largest: IKey, entries: seq<Entry>)

  type Version = seq<seq<File>>

  ghost predicate FileOk(f: File)
  {
    |f.entries| > 0 && Merged(f.entries) &&
    f.smallest == f.entries[0].key && f.largest == f.entries[|f.entries| - 1].key
  }

  /** Every entry of `f` is newer than every entry of `g` with the same user key. */
  ghost predicate Newer(f: File, g: File)
  {
    forall a, b :: a in f.entries && b in g.entries && a.key.user == b.key.user ==> a.key.seqno > b.key.seqno
  }

  /** The order in which a level lists its files: by smallest key, then by number. */
  predicate BySmallest(f: File, g: File)
  {
    Less(f.smallest, g.smallest) || (f.smallest == g.smallest && f.number < g.number)
  }

  ghost predicate Listed(files: seq<File>)
  {
    forall i, j :: 0 <= i < j < |files| ==> BySmallest(files[i], files[j])
  }

  /** Level 0: files may overlap; a larger file number means newer entries. */
  ghost predicate LevelZeroOk(files: seq<File>)
  {
    forall f, g :: f in files && g in files && f != g ==>
                     f.number != g.number && (f.number > g.number ==> Newer(f, g))
  }

  /** Deeper levels: key ranges are disjoint, and of two files sharing a user key the earlier is newer. */
  ghost predicate DeepLevelOk(files: seq<File>)
  {
    forall f, g :: f in files && g in files && f != g ==>
                     (Less(f.largest, g.smallest) && Newer(f, g)) || (Less(g.largest, f.smallest) && Newer(g, f))
  }

  ghost predicate LayersOk(v: Version)
  {
    forall l, m, f, g :: 0 <= l < m < |v| && f in v[l] && g in v[m] ==> Newer(f, g)
  }

  ghost predicate FilesOk(v: Version)
  {
    forall l, f :: 0 <= l < |v| && f in v[l] ==> FileOk(f)
  }

  /** The invariant of every installed version. */
  ghost predicate VersionOk(v: Version)
  {
    && |v| == NUM_LEVELS
    && FilesOk(v)
    && (forall l :: 0 <= l < |v| ==> Listed(v[l]))
    && LevelZeroOk(v[0])
    && (forall l :: 1 <= l < |v| ==> DeepLevelOk(v[l]))
    && LayersOk(v)
  }

  ghost function AllEntries(v: Version): set<Entry>
  {
    set l, f, e | 0 <= l < |v| && f in v[l] && e in f.entries :: e
  }

  /** The user key range of a file contains the key. */
  predicate Covers(f: File, user: Bytes)
  {
    Ord(f.smallest.user) <= Ord(user) <= Ord(f.largest.user)
  }

  lemma InRange(f: File, e: Entry)
    requires FileOk(f) && e in f.entries
    ensures AtMost(f.smallest, e.key) && AtMost(e.key, f.largest)
    ensures Covers(f, e.key.user)
  {
    var i :| 0 <= i < |f.entries| && f.entries[i] == e;
    assert i > 0 ==> Less(f.entries[0].key, f.entries[i].key);
    assert i < |f.entries| - 1 ==> Less(f.entries[i].key, f.entries[|f.entries| - 1].key);
  }

  /** A listed deep level ascends: every file ends before the next one begins. */
  lemma Ascending(files: seq<File>, i: nat, j: nat)
    requires (forall f :: f in files ==> FileOk(f)) && Listed(files) && DeepLevelOk(files)
    requires i < j < |files|
    ensures Less(files[i].largest, files[j].smallest) && Newer(files[i], files[j])
  {
    assert BySmallest(files[i], files[j]);
    var f, g := files[i], files[j];
    InRange(f, f.entries[0]);
    InRange(f, f.entries[|f.entries| - 1]);
    InRange(g, g.entries[0]);
    InRange(g, g.entries[|g.entries| - 1]);
    assert f != g;
  }

  /** Two files of a good version are the same file or one is newer. */
  lemma FilesCompare(v: Version, l: nat, f: File, m: nat, g: File)
    requires VersionOk(v) && l < |v| && m < |v| && f in v[l] && g in v[m]
    ensures (l == m && f == g) || Newer(f, g) || Newer(g, f)
  {
    if l == m && f != g {
      if l == 0 {
        assert f.number != g.number;
      } else {
        assert DeepLevelOk(v[l]);
      }
    }
  }

  /** No two entries of a good version share a user key and a sequence number. */
  lemma VersionUnique(v: Version)
    requires VersionOk(v)
    ensures Unique(AllEntries(v))
  {
    forall a, b | a in AllEntries(v) && b in AllEntries(v) && a.key.user == b.key.user && a.key.seqno == b.key.seqno
      ensures a == b
    {
      var l, f :| 0 <= l < |v| && f in v[l] && a in f.entries;
      var m, g :| 0 <= m < |v| && g in v[m] && b in g.entries;
      FilesCompare(v, l, f, m, g);
      assert FileOk(f);
    }
  }

  /** The first entry at or after `target`. */
  function FirstAtLeast(es: seq<Entry>, target: IKey): (i: nat)
    ensures i <= |es|
    ensures forall j :: 0 <= j < i ==> Less(es[j].key, target)
    ensures i < |es| ==> AtMost(target, es[i].key)
  {
    if es == [] || !Less(es[0].key, target) then 0 else 1 + FirstAtLeast(es[1..], target)
  }

  /** What a table lookup delivers: the first entry at or after the lookup key, if it is of the user key. */
  function TableGet(es: seq<Entry>, user: Bytes, snapshot: nat): Option<Entry>
  {
    var i := FirstAtLeast(es, LookupKey(user, snapshot));
    if i < |es| && es[i].key.user == user then Some(es[i]) else None
  }

  /** A table lookup finds the newest visible entry of its file, whenever there is one. */
  lemma TableGetIsNewest(es: seq<Entry>, user: Bytes, snapshot: nat)
    requires Merged(es)
    ensures TableGet(es, user, snapshot).Some? ==>
              IsNewest(EntrySet(es), user, snapshot, TableGet(es, user, snapshot).value)
    ensures TableGet(es, user, snapshot).None? ==> !Found(EntrySet(es), user, snapshot)
  {
    var i := FirstAtLeast(es, LookupKey(user, snapshot));
    forall o | o in es && Visible(o, user, snapshot)
      ensures i < |es| && es[i].key.user == user && o.key.seqno <= es[i].key.seqno
    {
      var j :| 0 <= j < |es| && es[j] == o;
      assert !Less(o.key, LookupKey(user, snapshot));
      assert i <= j;
      assert i < j ==> Less(es[i].key, es[j].key);
    }
    if i < |es| && es[i].key.user == user {
      assert Visible(es[i], user, snapshot);
    }
  }

  /** Where binary search over the largest keys ends up, whatever their order. */
  function FileSearch(files: seq<File>, key: IKey, left: nat, right: nat): (r: nat)
    requires left <= right <= |files|
    ensures left <= r <= right
    decreases right - left
  {
    if left == right then right
    else
      var mid := (left + right) / 2;
      if Less(files[mid].largest, key) then FileSearch(files, key, mid + 1, right)
      else FileSearch(files, key, left, mid)
  }

  ghost predicate ByLargest(files: seq<File>)
  {
    forall i, j :: 0 <= i < j < |files| ==> Less(files[i].largest, files[j].largest)
  }

  lemma SearchHalves(files: seq<File>, key: IKey, mid: nat)
    requires mid < |files|
    ensures ByLargest(files) && Less(files[mid].largest, key) ==> forall i :: 0 <= i <= mid ==>
                                                                                Less(files[i].largest, key)
    ensures ByLargest(files) && !Less(files[mid].largest, key) ==> forall i :: mid <= i < |files| ==>
                                                                                 AtMost(key, files[i].largest)
  {
  }

  /** Binary search: in a level that ascends, the first file whose largest key is at or after `key`. */
  method FindFile(files: seq<File>, key: IKey) returns (right: nat)
    ensures right <= |files| && right == FileSearch(files, key, 0, |files|)
    ensures ByLargest(files) ==> forall i :: 0 <= i < right ==> Less(files[i].largest, key)
    ensures ByLargest(files) ==> forall i :: right <= i < |files| ==> AtMost(key, files[i].largest)
  {
    hide Less, AtMost, ByLargest;
    var left := 0;
    right := |files|;
    while left < right
      invariant 0 <= left <= right <= |files|
      invariant FileSearch(files, key, left, right) == FileSearch(files, key, 0, |files|)
      invariant ByLargest(files) ==> forall i :: 0 <= i < left ==> Less(files[i].largest, key)
      invariant ByLargest(files) ==> forall i :: right <= i < |files| ==> AtMost(key, files[i].largest)
    {
      var mid := (left + right) / 2;
      SearchHalves(files, key, mid);
      if Less(files[mid].largest, key) {
        left := mid + 1;
      } else {
        right := mid;
      }
    }
  }

  /** Inserts a file into a list that descends by file number. */
  function InsertNewest(f: File, files: seq<File>): (r: seq<File>)
    requires forall i, j :: 0 <= i < j < |files| ==> files[i].number >= files[j].number
    ensures forall i, j :: 0 <= i < j < |r| ==> r[i].number >= r[j].number
    ensures forall g :: g in r <==> g == f || g in files
  {
    if files == [] || f.number >= files[0].number then [f] + files
    else
      assert files == [files[0]] + files[1..];
      var tail := InsertNewest(f, files[1..]);
      assert forall i :: 0 <= i < |tail| ==> tail[i] in tail;
      [files[0]] + tail
  }

  /** Sorts files newest first. */
  function NewestFirst(files: seq<File>): (r: seq<File>)
    ensures forall i, j :: 0 <= i < j < |r| ==> r[i].number >= r[j].number
    ensures forall g :: g in r <==> g in files
  {
    if files == [] then []
    else
      assert files == [files[0]] + files[1..];
      InsertNewest(files[0], NewestFirst(files[1..]))
  }

  /** Entries of the first `n` levels. */
  ghost function Upper(v: Version, n: nat): set<Entry>
    requires n <= |v|
  {
    set l, f, e | 0 <= l < n && f in v[l] && e in f.entries :: e
  }

  /** A newest entry of one level is the newest of the version when no level above has a visible one. */
  lemma FirstHitWins(v: Version, l: nat, f: File, user: Bytes, snapshot: nat, e: Entry)
    requires VersionOk(v) && l < |v| && f in v[l]
    requires !Found(Upper(v, l), user, snapshot)
    requires IsNewest(EntrySet(f.entries), user, snapshot, e)
    requires forall g, o :: g in v[l] && g != f && o in g.entries && Visible(o, user, snapshot) ==> Newer(f, g)
    ensures Read(AllEntries(v), user, snapshot) == ValueOf(e)
  {
    assert e in f.entries;
    assert e in AllEntries(v);
    forall o | o in AllEntries(v) && Visible(o, user, snapshot)
      ensures o.key.seqno <= e.key.seqno
    {
      var m, g :| 0 <= m < |v| && g in v[m] && o in g.entries;
      assert o in Upper(v, l) <==> exists j, h :: 0 <= j < l && h in v[j] && o in h.entries;
      assert m > l ==> Newer(f, g);
      assert m == l && g != f ==> Newer(f, g);
      assert g == f ==> o in EntrySet(f.entries);
    }
    VersionUnique(v);
    ReadIs(AllEntries(v), user, snapshot, e);
  }

  /** Level 0: every file whose range covers the key, newest first. */
  method GetLevelZero(v: Version, user: Bytes, snapshot: nat) returns (hit: Option<Entry>)
    requires VersionOk(v)
    ensures hit.Some? ==> Read(AllEntries(v), user, snapshot) == ValueOf(hit.value)
    ensures hit.None? ==> !Found(Upper(v, 1), user, snapshot)
  {
    hide Newer, Merged, Listed, DeepLevelOk, LayersOk;
    var candidates: seq<File> := [];
    for i := 0 to |v[0]|
      invariant forall f :: f in candidates <==> f in v[0][..i] && Covers(f, user)
    {
      if Covers(v[0][i], user) {
        candidates := candidates + [v[0][i]];
      }
    }
    assert v[0][..|v[0]|] == v[0];
    candidates := NewestFirst(candidates);
    for i := 0 to |candidates|
      invariant forall j :: 0 <= j < i ==> !Found(EntrySet(candidates[j].entries), user, snapshot)
    {
      var f := candidates[i];
      assert FileOk(f);
      TableGetIsNewest(f.entries, user, snapshot);
      hit := TableGet(f.entries, user, snapshot);
      if hit.Some? {
        forall g, o | g in v[0] && g != f && o in g.entries && Visible(o, user, snapshot)
          ensures Newer(f, g)
        {
          InRange(g, o);
          var j :| 0 <= j < |candidates| && candidates[j] == g;
          assert o in EntrySet(g.entries);
          assert j >= i;
        }
        FirstHitWins(v, 0, f, user, snapshot, hit.value);
        return;
      }
    }
    hit := None;
    forall o | o in Upper(v, 1)
      ensures !Visible(o, user, snapshot)
    {
      var l, g :| 0 <= l < 1 && g in v[l] && o in g.entries;
      InRange(g, o);
      assert o in EntrySet(g.entries);
      assert g in candidates ==> !Found(EntrySet(g.entries), user, snapshot);
    }
  }

  /** Good files, each ending before the next begins. */
  ghost predicate Ascends(files: seq<File>)
  {
    (forall f :: f in files ==> FileOk(f)) &&
    forall i, j :: 0 <= i < j < |files| ==>
                     Less(files[i].largest, files[j].smallest) && Less(files[i].largest, files[j].largest)
  }

  lemma DeepLevelAscends(v: Version, l: nat)
    requires VersionOk(v) && 1 <= l < |v|
    ensures Ascends(v[l])
  {
    var files := v[l];
    forall i, j | 0 <= i < j < |files|
      ensures Less(files[i].largest, files[j].smallest) && Newer(files[i], files[j])
      ensures Less(files[i].largest, files[j].largest)
    {
      Ascending(files, i, j);
      InRange(files[j], files[j].entries[|files[j].entries| - 1]);
    }
  }

  /** Only the file that binary search selects can hold a visible entry that no earlier file holds. */
  lemma DeepMiss(files: seq<File>, index: nat, user: Bytes, snapshot: nat, k: nat, o: Entry)
    requires Ascends(files) && index <= |files|
    requires forall i :: 0 <= i < index ==> Less(files[i].largest, LookupKey(user, snapshot))
    requires index < |files| ==> AtMost(LookupKey(user, snapshot), files[index].largest)
    requires index < |files| && Ord(user) >= Ord(files[index].smallest.user) ==>
               !Found(EntrySet(files[index].entries), user, snapshot)
    requires k < |files| && o in files[k].entries
    ensures !Visible(o, user, snapshot)
  {
    InRange(files[k], o);
    assert o in EntrySet(files[k].entries);
    if index < k {
      AfterLookup(files[index], user, snapshot);
      assert Less(files[index].largest, files[k].smallest);
    } else if k < index {
      assert Less(files[k].largest, LookupKey(user, snapshot));
    }
  }

  lemma DeepMissAll(v: Version, l: nat, index: nat, user: Bytes, snapshot: nat)
    requires l < |v| && Ascends(v[l]) && index <= |v[l]|
    requires !Found(Upper(v, l), user, snapshot)
    requires forall i :: 0 <= i < index ==> Less(v[l][i].largest, LookupKey(user, snapshot))
    requires index < |v[l]| ==> AtMost(LookupKey(user, snapshot), v[l][index].largest)
    requires index < |v[l]| && Ord(user) >= Ord(v[l][index].smallest.user) ==>
               !Found(EntrySet(v[l][index].entries), user, snapshot)
    ensures !Found(Upper(v, l + 1), user, snapshot)
  {
    forall o | o in Upper(v, l + 1)
      ensures !Visible(o, user, snapshot)
    {
      var m, g :| 0 <= m < l + 1 && g in v[m] && o in g.entries;
      if m == l {
        var k :| 0 <= k < |v[l]| && v[l][k] == g;
        DeepMiss(v[l], index, user, snapshot, k, o);
      } else {
        assert o in Upper(v, l);
      }
    }
  }

  lemma VisibleNotBefore(o: Entry, user: Bytes, snapshot: nat)
    requires Visible(o, user, snapshot)
    ensures !Less(o.key, LookupKey(user, snapshot))
  {
  }

  lemma VisibleNotBeyond(f: File, user: Bytes, snapshot: nat, o: Entry)
    requires FileOk(f) && o in f.entries && Visible(o, user, snapshot)
    ensures !Less(f.largest, LookupKey(user, snapshot))
  {
    InRange(f, o);
    VisibleNotBefore(o, user, snapshot);
    hide Less, AtMost, LookupKey, FileOk;
    if Less(f.largest, LookupKey(user, snapshot)) {
      AtMostThenLess(o.key, f.largest, LookupKey(user, snapshot));
    }
  }

  /** Any other file with a visible entry lies after the selected file, so it is older. */
  lemma DeepHit(files: seq<File>, index: nat, user: Bytes, snapshot: nat, g: File, o: Entry)
    requires Ascends(files) && Listed(files) && DeepLevelOk(files) && index < |files|
    requires forall i :: 0 <= i < index ==> Less(files[i].largest, LookupKey(user, snapshot))
    requires g in files && g != files[index] && o in g.entries && Visible(o, user, snapshot)
    ensures Newer(files[index], g)
  {
    hide FileOk, Newer, Listed, DeepLevelOk, Less, AtMost, LookupKey, Visible;
    VisibleNotBeyond(g, user, snapshot, o);
    var k :| 0 <= k < |files| && files[k] == g;
    Ascending(files, index, k);
  }

  /** A file that ends at or after the lookup key without a visible entry ends after the user key. */
  lemma AfterLookup(f: File, user: Bytes, snapshot: nat)
    requires FileOk(f) && AtMost(LookupKey(user, snapshot), f.largest)
    requires Ord(user) >= Ord(f.smallest.user) ==> !Found(EntrySet(f.entries), user, snapshot)
    ensures Ord(f.largest.user) > Ord(user)
  {
    var last := f.entries[|f.entries| - 1];
    InRange(f, last);
    assert last in EntrySet(f.entries);
    assert f.largest.user == user ==> Visible(last, user, snapshot);
  }

  /** A deeper level: the one file that binary search selects. */
  method GetDeepLevel(v: Version, l: nat, user: Bytes, snapshot: nat) returns (hit: Option<Entry>)
    requires VersionOk(v) && 1 <= l < |v|
    requires !Found(Upper(v, l), user, snapshot)
    ensures hit.Some? ==> Read(AllEntries(v), user, snapshot) == ValueOf(hit.value)
    ensures hit.None? ==> !Found(Upper(v, l + 1), user, snapshot)
  {
    var files := v[l];
    DeepLevelAscends(v, l);
    var index := FindFile(files, LookupKey(user, snapshot));
    hit := None;
    if index < |files| && Ord(user) >= Ord(files[index].smallest.user) {
      var f := files[index];
      assert FileOk(f);
      TableGetIsNewest(f.entries, user, snapshot);
      hit := TableGet(f.entries, user, snapshot);
      if hit.Some? {
        forall g, o | g in files && g != f && o in g.entries && Visible(o, user, snapshot)
          ensures Newer(f, g)
        {
          DeepHit(files, index, user, snapshot, g, o);
        }
        FirstHitWins(v, l, f, user, snapshot, hit.value);
        return;
      }
    }
    DeepMissAll(v, l, index, user, snapshot);
  }

  /** The point lookup: levels from the top, stopping at the first value or deletion marker. */
  method Get(v: Version, user: Bytes, snapshot: nat) returns (r: Option<Bytes>)
    requires VersionOk(v)
    ensures r == Read(AllEntries(v), user, snapshot)
  {
    var hit := GetLevelZero(v, user, snapshot);
    if hit.Some? {
      return ValueOf(hit.value);
    }
    for l := 1 to |v|
      invariant !Found(Upper(v, l), user, snapshot)
    {
      hit := GetDeepLevel(v, l, user, snapshot);
      if hit.Some? {
        return ValueOf(hit.value);
      }
    }
    assert Upper(v, |v|) == AllEntries(v);
    r := None;
  }
}
