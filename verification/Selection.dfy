/**
 Which files a compaction takes: the overlapping files of a level, the boundary files that hold
 older versions of the last user key, and the matching files of the next level.
 */
module Selection {
  import opened Keys
  import opened Drops
  import opened Versions

  /** The user key range of `f` meets [begin, end]; an absent bound is unbounded. */
  predicate Overlaps(f: File, begin: Option<Bytes>, end: Option<Bytes>)
  {
    !(begin.Some? && Ord(f.largest.user) < Ord(begin.value)) && !(end.Some? && Ord(f.smallest.user) > Ord(end.value))
  }

  /** The user key range of `f` lies inside [begin, end]. */
  predicate Within(f: File, begin: Option<Bytes>, end: Option<Bytes>)
  {
    (begin.Some? ==> Ord(begin.value) <= Ord(f.smallest.user)) && (end.Some? ==> Ord(f.largest.user) <= Ord(end.value))
  }

  /** [b, e] lies inside [begin, end]. */
  ghost predicate Includes(begin: Option<Bytes>, end: Option<Bytes>, b: Option<Bytes>, e: Option<Bytes>)
  {
    (begin.Some? ==> b.Some? && Ord(begin.value) <= Ord(b.value)) &&
    (end.Some? ==> e.Some? && Ord(e.value) <= Ord(end.value))
  }

  /** Every file that meets the range lies inside it. */
  ghost predicate ClosedRange(files: seq<File>, begin: Option<Bytes>, end: Option<Bytes>)
  {
    forall f :: f in files && Overlaps(f, begin, end) ==> Within(f, begin, end)
  }

  /** The files that meet the range, in their order. */
  function Overlapping(files: seq<File>, begin: Option<Bytes>, end: Option<Bytes>): (r: seq<File>)
    ensures forall f :: f in r <==> f in files && Overlaps(f, begin, end)
  {
    if files == [] then []
    else
      var last := files[|files| - 1];
      assert forall f :: f in files <==> f in files[..|files| - 1] || f == last;
      Overlapping(files[..|files| - 1], begin, end) + if Overlaps(last, begin, end) then [last] else []
  }

  ghost function StartsBefore(files: seq<File>, b: Option<Bytes>): set<File>
  {
    set f | f in files && b.Some? && Ord(f.smallest.user) < Ord(b.value)
  }

  ghost function EndsAfter(files: seq<File>, e: Option<Bytes>): set<File>
  {
    set f | f in files && e.Some? && Ord(f.largest.user) > Ord(e.value)
  }

  lemma ProperSubsetSmaller<T>(a: set<T>, b: set<T>, x: T)
    requires a <= b && x in b && x !in a
    ensures |a| < |b|
  {
    assert a <= b - {x};
    SubsetNotLarger(a, b - {x});
  }

  lemma {:induction false} SubsetNotLarger<T>(a: set<T>, b: set<T>)
    requires a <= b
    ensures |a| <= |b|
    decreases |a|
  {
    if x :| x in a {
      SubsetNotLarger(a - {x}, b - {x});
    }
  }

  /** [b, e] lies inside every closed range that includes [begin, end]. */
  ghost predicate Least(files: seq<File>, begin: Option<Bytes>, end: Option<Bytes>, b: Option<Bytes>, e: Option<Bytes>)
  {
    forall b2, e2 :: ClosedRange(files, b2, e2) && Includes(b2, e2, begin, end) ==> Includes(b2, e2, b, e)
  }

  /** The state of the scan after `i` files with the range [b, e]. */
  ghost predicate Scanned(files: seq<File>, level: nat, begin: Option<Bytes>, end: Option<Bytes>,
                          b: Option<Bytes>, e: Option<Bytes>, i: nat, inputs: seq<File>)
  {
    && i <= |files|
    && inputs == Overlapping(files[..i], b, e)
    && (level > 0 ==> b == begin && e == end)
    && (level == 0 ==> forall f :: f in inputs ==> Within(f, b, e))
    && Includes(b, e, begin, end) && b.Some? == begin.Some? && e.Some? == end.Some?
    && Least(files, begin, end, b, e)
  }

  lemma ScanOne(files: seq<File>, level: nat, begin: Option<Bytes>, end: Option<Bytes>,
                b: Option<Bytes>, e: Option<Bytes>, i: nat, inputs: seq<File>)
    requires Scanned(files, level, begin, end, b, e, i, inputs) && i < |files|
    requires level == 0 && Overlaps(files[i], b, e) ==> Within(files[i], b, e)
    ensures Scanned(files, level, begin, end, b, e, i + 1, inputs + if Overlaps(files[i], b, e) then [files[i]] else [])
  {
    assert files[..i + 1][..i] == files[..i];
  }

  /** Growing the range to the start of a file that meets it is forced, and is progress. */
  lemma GrowBegin(files: seq<File>, begin: Option<Bytes>, end: Option<Bytes>, b: Option<Bytes>, e: Option<Bytes>,
                  i: nat, inputs: seq<File>)
    requires Scanned(files, 0, begin, end, b, e, i, inputs) && i < |files| && Overlaps(files[i], b, e)
    requires b.Some? && Ord(files[i].smallest.user) < Ord(b.value)
    ensures Scanned(files, 0, begin, end, Some(files[i].smallest.user), e, 0, [])
    ensures |StartsBefore(files, Some(files[i].smallest.user))| < |StartsBefore(files, b)|
  {
    var f := files[i];
    ProperSubsetSmaller(StartsBefore(files, Some(f.smallest.user)), StartsBefore(files, b), f);
    forall b2, e2 | ClosedRange(files, b2, e2) && Includes(b2, e2, begin, end)
      ensures Includes(b2, e2, Some(f.smallest.user), e)
    {
      assert Includes(b2, e2, b, e);
      assert Overlaps(f, b2, e2);
    }
  }

  lemma GrowEnd(files: seq<File>, begin: Option<Bytes>, end: Option<Bytes>, b: Option<Bytes>, e: Option<Bytes>, i: nat,
                inputs: seq<File>)
    requires Scanned(files, 0, begin, end, b, e, i, inputs) && i < |files| && Overlaps(files[i], b, e)
    requires e.Some? && Ord(files[i].largest.user) > Ord(e.value)
    ensures Scanned(files, 0, begin, end, b, Some(files[i].largest.user), 0, [])
    ensures |EndsAfter(files, Some(files[i].largest.user))| < |EndsAfter(files, e)|
  {
    var f := files[i];
    ProperSubsetSmaller(EndsAfter(files, Some(f.largest.user)), EndsAfter(files, e), f);
    forall b2, e2 | ClosedRange(files, b2, e2) && Includes(b2, e2, begin, end)
      ensures Includes(b2, e2, b, Some(f.largest.user))
    {
      assert Includes(b2, e2, b, e);
      assert Overlaps(f, b2, e2);
    }
  }

  /** What the scan has found when it reaches the end of the level. */
  lemma ScanDone(files: seq<File>, level: nat, begin: Option<Bytes>, end: Option<Bytes>,
                 b: Option<Bytes>, e: Option<Bytes>, inputs: seq<File>)
    requires Scanned(files, level, begin, end, b, e, |files|, inputs)
    ensures inputs == Overlapping(files, b, e)
    ensures level > 0 ==> b == begin && e == end
    ensures level == 0 ==> ClosedRange(files, b, e)
    ensures Includes(b, e, begin, end) && b.Some? == begin.Some? && e.Some? == end.Some?
    ensures Least(files, begin, end, b, e)
  {
    assert files[..|files|] == files;
  }

  lemma ScanStart(files: seq<File>, level: nat, begin: Option<Bytes>, end: Option<Bytes>)
    ensures Scanned(files, level, begin, end, begin, end, 0, [])
  {
  }

  /**
   The files of a level that meet [begin, end]. On level 0, where files overlap each other, the
   range grows until it is closed; the result is exactly the files meeting the least closed range.
   */
  method GetOverlappingInputs(files: seq<File>, level: nat, begin: Option<Bytes>, end: Option<Bytes>)
    returns (inputs: seq<File>, ghost b: Option<Bytes>, ghost e: Option<Bytes>)
    ensures inputs == Overlapping(files, b, e)
    ensures level > 0 ==> b == begin && e == end
    ensures level == 0 ==> ClosedRange(files, b, e)
    ensures Includes(b, e, begin, end) && b.Some? == begin.Some? && e.Some? == end.Some?
    ensures Least(files, begin, end, b, e)
  {
    inputs := [];
    var lo, hi := begin, end;
    var i := 0;
    ScanStart(files, level, begin, end);
    hide Scanned, StartsBefore, EndsAfter, ClosedRange, Least, Overlapping, Includes;
    while i < |files|
      invariant 0 <= i <= |files|
      invariant Scanned(files, level, begin, end, lo, hi, i, inputs)
      decreases |StartsBefore(files, lo)| + |EndsAfter(files, hi)|, |files| - i
    {
      var f := files[i];
      if lo.Some? && Ord(f.largest.user) < Ord(lo.value) {
        ScanOne(files, level, begin, end, lo, hi, i, inputs);
        assert inputs + [] == inputs;
        i := i + 1;
      } else if hi.Some? && Ord(f.smallest.user) > Ord(hi.value) {
        ScanOne(files, level, begin, end, lo, hi, i, inputs);
        assert inputs + [] == inputs;
        i := i + 1;
      } else if level == 0 && lo.Some? && Ord(f.smallest.user) < Ord(lo.value) {
        GrowBegin(files, begin, end, lo, hi, i, inputs);
        lo := Some(f.smallest.user);
        inputs := [];
        i := 0;
      } else if level == 0 && hi.Some? && Ord(f.largest.user) > Ord(hi.value) {
        GrowEnd(files, begin, end, lo, hi, i, inputs);
        hi := Some(f.largest.user);
        inputs := [];
        i := 0;
      } else {
        ScanOne(files, level, begin, end, lo, hi, i, inputs);
        inputs := inputs + [f];
        i := i + 1;
      }
    }
    ScanDone(files, level, begin, end, lo, hi, inputs);
    b, e := lo, hi;
  }

  /** The user key ranges of two files do not meet. */
  predicate Apart(f: File, g: File)
  {
    Ord(f.largest.user) < Ord(g.smallest.user) || Ord(g.largest.user) < Ord(f.smallest.user)
  }

  /** No file left out meets a picked one. */
  ghost predicate Isolated(files: seq<File>, picked: seq<File>)
  {
    forall f, g :: f in picked && g in files && g !in picked ==> Apart(f, g)
  }

  lemma ApartShareNothing(f: File, g: File)
    requires FileOk(f) && FileOk(g) && Apart(f, g)
    ensures Newer(f, g) && Newer(g, f)
  {
    forall x, y | x in f.entries && y in g.entries
      ensures x.key.user != y.key.user
    {
      InRange(f, x);
      InRange(g, y);
    }
  }

  /** On level 0 no excluded file overlaps an included one. */
  lemma ClosedRangeIsolates(files: seq<File>, b: Option<Bytes>, e: Option<Bytes>)
    requires ClosedRange(files, b, e)
    ensures Isolated(files, Overlapping(files, b, e))
  {
  }

  /** The largest key of a nonempty list of files. */
  ghost predicate IsLargest(files: seq<File>, k: IKey)
  {
    (exists f :: f in files && f.largest == k) && forall f :: f in files ==> AtMost(f.largest, k)
  }

  ghost predicate IsSmallest(files: seq<File>, k: IKey)
  {
    (exists f :: f in files && f.smallest == k) && forall f :: f in files ==> AtMost(k, f.smallest)
  }

  /** `g` begins after `k` with the user key of `k`: it holds older versions of that user key. */
  predicate IsBoundary(g: File, k: IKey)
  {
    Less(k, g.smallest) && g.smallest.user == k.user
  }

  lemma ExtendLargest(files: seq<File>, i: nat, k: IKey)
    requires i < |files| && IsLargest(files[..i], k)
    ensures IsLargest(files[..i + 1], if Less(k, files[i].largest) then files[i].largest else k)
  {
    var m :| m in files[..i] && m.largest == k;
    assert m in files[..i + 1] && files[i] in files[..i + 1];
    forall f | f in files[..i + 1]
      ensures AtMost(f.largest, k) || f == files[i]
    {
      assert f in files[..i] || f == files[i];
    }
  }

  lemma ExtendSmallest(files: seq<File>, i: nat, k: IKey)
    requires i < |files| && IsSmallest(files[..i], k)
    ensures IsSmallest(files[..i + 1], if Less(files[i].smallest, k) then files[i].smallest else k)
  {
    var m :| m in files[..i] && m.smallest == k;
    assert m in files[..i + 1] && files[i] in files[..i + 1];
    forall f | f in files[..i + 1]
      ensures AtMost(k, f.smallest) || f == files[i]
    {
      assert f in files[..i] || f == files[i];
    }
  }

  method FindLargestKey(files: seq<File>) returns (largest: Option<IKey>)
    ensures largest.None? <==> files == []
    ensures largest.Some? ==> IsLargest(files, largest.value)
  {
    if files == [] {
      return None;
    }
    var key := files[0].largest;
    for i := 1 to |files|
      invariant IsLargest(files[..i], key)
    {
      ExtendLargest(files, i, key);
      if Less(key, files[i].largest) {
        key := files[i].largest;
      }
    }
    assert files[..|files|] == files;
    largest := Some(key);
  }

  /** The smallest and largest keys of a nonempty list of files. */
  method GetRange(files: seq<File>) returns (smallest: IKey, largest: IKey)
    requires files != []
    ensures IsSmallest(files, smallest) && IsLargest(files, largest)
  {
    smallest, largest := files[0].smallest, files[0].largest;
    for i := 1 to |files|
      invariant IsSmallest(files[..i], smallest) && IsLargest(files[..i], largest)
    {
      ExtendSmallest(files, i, smallest);
      ExtendLargest(files, i, largest);
      if Less(files[i].smallest, smallest) {
        smallest := files[i].smallest;
      }
      if Less(largest, files[i].largest) {
        largest := files[i].largest;
      }
    }
    assert files[..|files|] == files;
  }

  method FindSmallestBoundaryFile(files: seq<File>, largest: IKey) returns (r: Option<File>)
    ensures r.None? ==> forall g :: g in files ==> !IsBoundary(g, largest)
    ensures r.Some? ==> r.value in files && IsBoundary(r.value, largest)
    ensures r.Some? ==> forall g :: g in files && IsBoundary(g, largest) ==> AtMost(r.value.smallest, g.smallest)
  {
    r := None;
    for i := 0 to |files|
      invariant r.None? ==> forall g :: g in files[..i] ==> !IsBoundary(g, largest)
      invariant r.Some? ==> r.value in files && IsBoundary(r.value, largest)
      invariant r.Some? ==> forall g :: g in files[..i] && IsBoundary(g, largest) ==>
                                          AtMost(r.value.smallest, g.smallest)
    {
      var f := files[i];
      if IsBoundary(f, largest) && (r.None? || Less(f.smallest, r.value.smallest)) {
        r := Some(f);
      }
    }
    assert files[..|files|] == files;
  }

  predicate Between(f: File, g: File, h: File)
  {
    Less(f.largest, g.smallest) && Less(g.largest, h.smallest)
  }

  /** `picked` is a contiguous run of an ascending level. */
  ghost predicate Convex(files: seq<File>, picked: seq<File>)
  {
    forall f, g, h :: f in picked && h in picked && g in files && Between(f, g, h) ==> g in picked
  }

  ghost predicate PickedFrom(files: seq<File>, picked: seq<File>)
  {
    forall f :: f in picked ==> f in files
  }

  ghost function StartsAfterKey(files: seq<File>, k: IKey): set<File>
  {
    set f | f in files && Less(k, f.smallest)
  }

  /** Adding the smallest boundary file extends the run by its immediate successor. */
  lemma BoundaryExtends(files: seq<File>, picked: seq<File>, largest: IKey, f: File)
    requires (forall g :: g in files ==> FileOk(g)) && PickedFrom(files, picked) && IsLargest(picked, largest)
    requires f in files && IsBoundary(f, largest)
    requires forall g :: g in files && IsBoundary(g, largest) ==> AtMost(f.smallest, g.smallest)
    ensures PickedFrom(files, picked + [f]) && IsLargest(picked + [f], f.largest)
    ensures |StartsAfterKey(files, f.largest)| < |StartsAfterKey(files, largest)|
    ensures DeepLevelOk(files) && Convex(files, picked) ==> Convex(files, picked + [f])
  {
    hide Newer, Merged;
    InRange(f, f.entries[0]);
    ProperSubsetSmaller(StartsAfterKey(files, f.largest), StartsAfterKey(files, largest), f);
    if DeepLevelOk(files) && Convex(files, picked) {
      forall a, g, b | a in picked + [f] && b in picked + [f] && g in files && Between(a, g, b)
        ensures g in picked + [f]
      {
        BetweenRun(files, picked, largest, f, a, g, b);
      }
    }
  }

  lemma BetweenRun(files: seq<File>, picked: seq<File>, largest: IKey, f: File, a: File, g: File, b: File)
    requires (forall x :: x in files ==> FileOk(x)) && PickedFrom(files, picked) && IsLargest(picked, largest)
    requires f in files && IsBoundary(f, largest) && DeepLevelOk(files) && Convex(files, picked)
    requires forall x :: x in files && IsBoundary(x, largest) ==> AtMost(f.smallest, x.smallest)
    requires a in picked + [f] && b in picked + [f] && g in files && Between(a, g, b)
    ensures g in picked
  {
    InRange(a, a.entries[0]);
    InRange(b, b.entries[0]);
    InRange(g, g.entries[0]);
    InRange(f, f.entries[0]);
    hide FileOk, Newer;
    assert a in picked by {
      assert a == f ==> Less(f.smallest, b.smallest);
      assert b in picked ==> AtMost(b.largest, largest);
    }
    if b in picked {
      assert Between(a, g, b);
    } else {
      var m :| m in picked && m.largest == largest;
      assert !IsBoundary(g, largest);
      assert g != m ==> Less(g.largest, m.smallest) || Less(m.largest, g.smallest);
      assert Less(m.largest, g.smallest) ==> g.smallest.user == largest.user;
      assert g != m ==> Between(a, g, m);
    }
  }

  lemma IsolatedHasNoBoundary(files: seq<File>, picked: seq<File>, largest: IKey, g: File)
    requires (forall x :: x in files ==> FileOk(x)) && PickedFrom(files, picked) && IsLargest(picked, largest)
    requires g in files && IsBoundary(g, largest)
    ensures !Isolated(files, picked)
  {
    var m :| m in picked && m.largest == largest;
    InRange(m, m.entries[0]);
    InRange(g, g.entries[0]);
    assert AtMost(g.smallest, g.largest) && Less(largest, g.largest);
    assert !Apart(m, g);
  }

  /** No file meets the user key range. */
  ghost predicate Avoids(files: seq<File>, b: Bytes, e: Bytes)
  {
    forall f :: f in files ==> !Overlaps(f, Some(b), Some(e))
  }

  ghost predicate OneSide(files: seq<File>, b: Bytes, e: Bytes)
  {
    (forall f :: f in files ==> Ord(f.largest.user) < Ord(b)) ||
    (forall f :: f in files ==> Ord(e) < Ord(f.smallest.user))
  }

  /** The files have no gap: a user key range that meets none of them lies before or after all of them. */
  ghost predicate Unsplit(files: seq<File>)
  {
    forall b, e :: Ord(b) <= Ord(e) && Avoids(files, b, e) ==> OneSide(files, b, e)
  }

  lemma SameFilesUnsplit(files: seq<File>, others: seq<File>)
    requires Unsplit(files) && forall f :: f in files <==> f in others
    ensures Unsplit(others)
  {
    forall b, e | Ord(b) <= Ord(e) && Avoids(others, b, e)
      ensures OneSide(others, b, e)
    {
      assert Avoids(files, b, e);
    }
  }

  /** Files that meet the range of an unsplit list leave it unsplit. */
  lemma MoreUnsplit(files: seq<File>, more: seq<File>, lo: IKey, hi: IKey)
    requires Unsplit(files) && IsSmallest(files, lo) && IsLargest(files, hi)
    requires forall g :: g in more ==> Overlaps(g, Some(lo.user), Some(hi.user))
    ensures Unsplit(files + more)
  {
    var a :| a in files && a.smallest == lo;
    var z :| z in files && z.largest == hi;
    forall b, e | Ord(b) <= Ord(e) && Avoids(files + more, b, e)
      ensures OneSide(files + more, b, e)
    {
      assert Avoids(files, b, e) by {
        assert forall f :: f in files ==> f in files + more;
      }
      assert forall g :: g in more ==> g in files + more && !Overlaps(g, Some(b), Some(e));
    }
  }

  ghost predicate Meets(files: seq<File>, g: File)
  {
    exists f :: f in files && !Apart(f, g)
  }

  /** Each file from `n` on meets one before it. */
  ghost predicate Chained(files: seq<File>, n: nat)
  {
    n <= |files| && forall i :: n <= i < |files| ==> Meets(files[..i], files[i])
  }

  lemma ChainedSnoc(files: seq<File>, n: nat, g: File)
    requires Chained(files, n) && Meets(files, g)
    ensures Chained(files + [g], n)
  {
    hide Meets;
    var all := files + [g];
    forall i | n <= i < |all|
      ensures Meets(all[..i], all[i])
    {
      assert all[..i] == files[..i];
      assert files[..|files|] == files;
    }
  }

  lemma {:induction false} ChainUnsplit(core: seq<File>, files: seq<File>, n: nat)
    requires Chained(files, n) && Unsplit(core + files[..n])
    ensures Unsplit(core + files)
    decreases |files| - n
  {
    hide Unsplit, Apart;
    if n == |files| {
      assert files[..n] == files;
    } else {
      assert Meets(files[..n], files[n]);
      var f :| f in files[..n] && !Apart(f, files[n]);
      hide Meets;
      var before := core + files[..n];
      assert core + files[..n + 1] == before + [files[n]];
      assert f in before;
      TouchingUnsplit(before, f, files[n]);
      ChainUnsplit(core, files, n + 1);
    }
  }

  lemma TouchingUnsplit(files: seq<File>, f: File, g: File)
    requires Unsplit(files) && f in files && !Apart(f, g)
    ensures Unsplit(files + [g])
  {
    forall b, e | Ord(b) <= Ord(e) && Avoids(files + [g], b, e)
      ensures OneSide(files + [g], b, e)
    {
      assert Avoids(files, b, e) by {
        assert forall x :: x in files ==> x in files + [g];
      }
      assert g in files + [g];
    }
  }

  /** The least closed range around an unsplit list takes in no file across a gap. */
  lemma LeastUnsplit(files: seq<File>, core: seq<File>, lo: IKey, hi: IKey, b: Option<Bytes>, e: Option<Bytes>)
    requires (forall f :: f in files ==> FileOk(f)) && Unsplit(core) && IsSmallest(core, lo) && IsLargest(core, hi)
    requires ClosedRange(files, b, e) && Least(files, Some(lo.user), Some(hi.user), b, e)
    requires b.Some? && e.Some? && Includes(b, e, Some(lo.user), Some(hi.user))
    ensures Unsplit(core + Overlapping(files, b, e))
  {
    var picked := Overlapping(files, b, e);
    forall x, y | Ord(x) <= Ord(y) && Avoids(core + picked, x, y)
      ensures OneSide(core + picked, x, y)
    {
      assert Avoids(core, x, y) by {
        assert forall f :: f in core ==> f in core + picked;
      }
      assert Avoids(picked, x, y) by {
        assert forall f :: f in picked ==> f in core + picked;
      }
      if forall f :: f in core ==> Ord(f.largest.user) < Ord(x) {
        NoneAfter(files, lo, hi, b, e, x, y);
      } else {
        NoneBefore(files, lo, hi, b, e, x, y);
      }
    }
  }

  lemma NoneAfter(files: seq<File>, lo: IKey, hi: IKey, b: Option<Bytes>, e: Option<Bytes>, x: Bytes, y: Bytes)
    requires (forall f :: f in files ==> FileOk(f)) && ClosedRange(files, b, e)
    requires Least(files, Some(lo.user), Some(hi.user), b, e)
    requires b.Some? && e.Some? && Includes(b, e, Some(lo.user), Some(hi.user))
    requires Ord(x) <= Ord(y) && Avoids(Overlapping(files, b, e), x, y) && Ord(hi.user) < Ord(x)
    ensures forall f :: f in Overlapping(files, b, e) ==> Ord(f.largest.user) < Ord(x)
  {
    if Ord(x) <= Ord(e.value) {
      ClosedShort(files, b, e, x, y);
      assert Includes(b, Some(x), b, e);
    }
    forall f | f in Overlapping(files, b, e)
      ensures Ord(f.largest.user) < Ord(x)
    {
      InRange(f, f.entries[0]);
    }
  }

  /** Cut off in a gap, a closed range is closed. */
  lemma ClosedShort(files: seq<File>, b: Option<Bytes>, e: Option<Bytes>, x: Bytes, y: Bytes)
    requires (forall f :: f in files ==> FileOk(f)) && ClosedRange(files, b, e) && b.Some? && e.Some?
    requires Ord(x) <= Ord(y) && Avoids(Overlapping(files, b, e), x, y)
    requires (Ord(x) <= Ord(e.value) || Ord(b.value) <= Ord(y))
    ensures Ord(x) <= Ord(e.value) ==> ClosedRange(files, b, Some(x))
    ensures Ord(b.value) <= Ord(y) ==> ClosedRange(files, Some(y), e)
  {
    forall g | g in files
      ensures Ord(x) <= Ord(e.value) && Overlaps(g, b, Some(x)) ==> Within(g, b, Some(x))
      ensures Ord(b.value) <= Ord(y) && Overlaps(g, Some(y), e) ==> Within(g, Some(y), e)
    {
      assert Overlaps(g, b, e) ==> g in Overlapping(files, b, e);
    }
  }

  lemma NoneBefore(files: seq<File>, lo: IKey, hi: IKey, b: Option<Bytes>, e: Option<Bytes>, x: Bytes, y: Bytes)
    requires (forall f :: f in files ==> FileOk(f)) && ClosedRange(files, b, e)
    requires Least(files, Some(lo.user), Some(hi.user), b, e)
    requires b.Some? && e.Some? && Includes(b, e, Some(lo.user), Some(hi.user))
    requires Ord(x) <= Ord(y) && Avoids(Overlapping(files, b, e), x, y) && Ord(y) < Ord(lo.user)
    ensures forall f :: f in Overlapping(files, b, e) ==> Ord(y) < Ord(f.smallest.user)
  {
    if Ord(b.value) <= Ord(y) {
      ClosedShort(files, b, e, x, y);
      assert Includes(Some(y), e, b, e);
    }
    forall f | f in Overlapping(files, b, e)
      ensures Ord(y) < Ord(f.smallest.user)
    {
      InRange(f, f.entries[0]);
    }
  }

  /** The file that follows a pick: of those that begin after its largest key with that user key, the first. */
  ghost predicate NextBoundary(files: seq<File>, picked: seq<File>, f: File)
  {
    exists k :: IsLargest(picked, k) && f in files && IsBoundary(f, k) &&
                forall g :: g in files && IsBoundary(g, k) ==> AtMost(f.smallest, g.smallest)
  }

  /** A pick and then its boundary files, one after another, until none is left. */
  ghost predicate BoundaryRun(files: seq<File>, picked: seq<File>, run: seq<File>)
  {
    && picked <= run && (picked == [] ==> run == [])
    && (forall i :: |picked| <= i < |run| ==> NextBoundary(files, run[..i], run[i]))
    && forall k, g :: IsLargest(run, k) && g in files ==> !IsBoundary(g, k)
  }

  lemma NextIs(files: seq<File>, picked: seq<File>, k: IKey, f: File)
    requires IsLargest(picked, k) && f in files && IsBoundary(f, k)
    requires forall g :: g in files && IsBoundary(g, k) ==> AtMost(f.smallest, g.smallest)
    ensures NextBoundary(files, picked, f)
  {
  }

  lemma RunSnoc(files: seq<File>, n: nat, run: seq<File>, f: File)
    requires n <= |run| && (forall i :: n <= i < |run| ==> NextBoundary(files, run[..i], run[i]))
    requires NextBoundary(files, run, f)
    ensures forall i :: n <= i < |run + [f]| ==> NextBoundary(files, (run + [f])[..i], (run + [f])[i])
  {
    hide NextBoundary;
    var all := run + [f];
    forall i | n <= i < |all|
      ensures NextBoundary(files, all[..i], all[i])
    {
      assert all[..i] == run[..i];
      assert run[..|run|] == run;
    }
  }

  /** Extends `picked` with boundary files until none is left. */
  method AddBoundaryInputs(files: seq<File>, picked: seq<File>) returns (r: seq<File>)
    requires (forall g :: g in files ==> FileOk(g)) && PickedFrom(files, picked)
    ensures picked <= r && PickedFrom(files, r)
    ensures picked == [] ==> r == []
    ensures forall k, g :: IsLargest(r, k) && g in files ==> !IsBoundary(g, k)
    ensures DeepLevelOk(files) && Convex(files, picked) ==> Convex(files, r)
    ensures Isolated(files, picked) ==> r == picked
    ensures Chained(r, |picked|)
    ensures BoundaryRun(files, picked, r)
  {
    r := picked;
    var found := FindLargestKey(picked);
    if found.None? {
      return;
    }
    var largest := found.value;
    var searching := true;
    hide NextBoundary, Chained, Convex, Isolated, IsLargest, FileOk, DeepLevelOk, Less;
    while searching
      invariant picked <= r && PickedFrom(files, r) && IsLargest(r, largest)
      invariant DeepLevelOk(files) && Convex(files, picked) ==> Convex(files, r)
      invariant !searching ==> forall g :: g in files ==> !IsBoundary(g, largest)
      invariant Isolated(files, picked) ==> r == picked
      invariant Chained(r, |picked|)
      invariant forall i :: |picked| <= i < |r| ==> NextBoundary(files, r[..i], r[i])
      decreases |StartsAfterKey(files, largest)|, searching
    {
      var boundary := FindSmallestBoundaryFile(files, largest);
      if boundary.Some? {
        IsolatedHasNoBoundary(files, r, largest, boundary.value);
        BoundaryExtends(files, r, largest, boundary.value);
        BoundaryMeets(files, r, largest, boundary.value);
        ChainedSnoc(r, |picked|, boundary.value);
        NextIs(files, r, largest, boundary.value);
        RunSnoc(files, |picked|, r, boundary.value);
        r := r + [boundary.value];
        largest := boundary.value.largest;
      } else {
        searching := false;
      }
    }
    forall k, g | IsLargest(r, k) && g in files
      ensures !IsBoundary(g, k)
    {
      SameLargest(r, k, largest);
    }
  }

  /** A boundary file meets the file with the largest key. */
  lemma BoundaryMeets(files: seq<File>, r: seq<File>, largest: IKey, g: File)
    requires (forall x :: x in files ==> FileOk(x)) && PickedFrom(files, r) && IsLargest(r, largest)
    requires g in files && IsBoundary(g, largest)
    ensures Meets(r, g)
  {
    var m :| m in r && m.largest == largest;
    InRange(m, m.entries[0]);
    InRange(g, g.entries[0]);
    assert !Apart(m, g);
  }

  lemma SameLargest(files: seq<File>, a: IKey, b: IKey)
    requires IsLargest(files, a) && IsLargest(files, b)
    ensures a == b
  {
    var f :| f in files && f.largest == a;
    var g :| g in files && g.largest == b;
    assert AtMost(a, b) && AtMost(b, a);
  }

  ghost predicate GoodPick(files: seq<File>, level: nat, picked: seq<File>)
  {
    picked != [] && PickedFrom(files, picked) && if level == 0 then Isolated(files, picked) else Convex(files, picked)
  }

  /** The files of an ascending level that meet a range form a contiguous run. */
  lemma OverlappingIsConvex(files: seq<File>, b: Option<Bytes>, e: Option<Bytes>)
    requires forall f :: f in files ==> FileOk(f)
    ensures Convex(files, Overlapping(files, b, e))
  {
    forall f, g, h | f in Overlapping(files, b, e) && h in Overlapping(files, b, e) && g in files && Between(f, g, h)
      ensures g in Overlapping(files, b, e)
    {
      InRange(g, g.entries[0]);
    }
  }

  /** No file left behind in the level holds an older version of a picked user key. */
  ghost predicate ClosedUnderOlder(files: seq<File>, picked: seq<File>)
  {
    forall f, g :: f in picked && g in files && g !in picked ==> Newer(g, f)
  }

  lemma RunIsClosed(files: seq<File>, picked: seq<File>, largest: IKey)
    requires (forall f :: f in files ==> FileOk(f)) && DeepLevelOk(files)
    requires PickedFrom(files, picked) && Convex(files, picked) && IsLargest(picked, largest)
    requires forall g :: g in files ==> !IsBoundary(g, largest)
    ensures ClosedUnderOlder(files, picked)
  {
    forall f, g | f in picked && g in files && g !in picked
      ensures Newer(g, f)
    {
      if Less(f.largest, g.smallest) {
        AfterRun(files, picked, largest, f, g);
        ApartShareNothing(f, g);
      }
    }
  }

  /** A file after some file of a closed run lies after all of its user keys. */
  lemma AfterRun(files: seq<File>, picked: seq<File>, largest: IKey, f: File, g: File)
    requires (forall x :: x in files ==> FileOk(x)) && DeepLevelOk(files)
    requires PickedFrom(files, picked) && Convex(files, picked) && IsLargest(picked, largest)
    requires f in picked && g in files && g !in picked && Less(f.largest, g.smallest) && !IsBoundary(g, largest)
    ensures Ord(f.largest.user) < Ord(g.smallest.user)
  {
    var m :| m in picked && m.largest == largest;
    InRange(m, m.entries[0]);
    InRange(g, g.entries[0]);
    assert AtMost(f.largest, m.largest);
    assert !Between(f, g, m);
    assert Less(m.largest, g.smallest);
  }

  lemma PickIsClosed(v: Version, level: nat, picked: seq<File>, largest: IKey)
    requires VersionOk(v) && level < |v| && GoodPick(v[level], level, picked) && IsLargest(picked, largest)
    requires forall g :: g in v[level] ==> !IsBoundary(g, largest)
    ensures ClosedUnderOlder(v[level], picked)
  {
    if level == 0 {
      forall f, g | f in picked && g in v[0] && g !in picked
        ensures Newer(g, f)
      {
        ApartShareNothing(f, g);
      }
    } else {
      RunIsClosed(v[level], picked, largest);
    }
  }

  function TotalFileSize(files: seq<File>): nat
  {
    if files == [] then 0 else files[0].size + TotalFileSize(files[1..])
  }

  /** What a compaction of `level` into the next level takes. */
  ghost predicate Selected(v: Version, level: nat, in0: seq<File>, in1: seq<File>)
    requires level + 1 < |v|
  {
    && in0 != [] && PickedFrom(v[level], in0) && ClosedUnderOlder(v[level], in0)
    && exists lo, hi :: IsSmallest(in0, lo) && IsLargest(in0, hi) &&
                        in1 == Overlapping(v[level + 1], Some(lo.user), Some(hi.user))
  }

  /**
   The overlapping files of `level`, extended with boundary files, as a pick: the first `n` of them
   meet [b, e], and the rest follow on them.
   */
  method PickRange(v: Version, level: nat, begin: Option<Bytes>, end: Option<Bytes>)
    returns (picked: seq<File>, ghost n: nat, ghost b: Option<Bytes>, ghost e: Option<Bytes>)
    requires VersionOk(v) && level < |v|
    ensures picked != [] ==> GoodPick(v[level], level, picked)
    ensures forall k, g :: IsLargest(picked, k) && g in v[level] ==> !IsBoundary(g, k)
    ensures forall f :: f in v[level] && Overlaps(f, begin, end) ==> f in picked
    ensures Chained(picked, n) && picked[..n] == Overlapping(v[level], b, e)
    ensures level > 0 ==> b == begin && e == end
    ensures level == 0 ==> ClosedRange(v[level], b, e)
    ensures Includes(b, e, begin, end) && b.Some? == begin.Some? && e.Some? == end.Some?
    ensures Least(v[level], begin, end, b, e)
    ensures BoundaryRun(v[level], Overlapping(v[level], b, e), picked)
  {
    hide *;
    var files := v[level];
    picked, b, e := GetOverlappingInputs(files, level, begin, end);
    RangeIsGood(v, level, begin, end, b, e);
    n := |picked|;
    ghost var met := picked;
    picked := AddBoundaryInputs(files, picked);
    if picked != [] {
      StillGood(v, level, met, picked);
    }
    assert forall f :: f in met ==> f in picked;
  }

  /** The files that meet a range are a pick. */
  lemma RangeIsGood(v: Version, level: nat, begin: Option<Bytes>, end: Option<Bytes>, b: Option<Bytes>,
                    e: Option<Bytes>)
    requires VersionOk(v) && level < |v| && Includes(b, e, begin, end) && (level == 0 ==> ClosedRange(v[level], b, e))
    ensures var met := Overlapping(v[level], b, e);
            && PickedFrom(v[level], met) && (met != [] ==> GoodPick(v[level], level, met))
            && forall f :: f in v[level] && Overlaps(f, begin, end) ==> f in met
    ensures forall f :: f in v[level] ==> FileOk(f)
  {
    var files := v[level];
    assert forall f :: f in files ==> FileOk(f);
    hide VersionOk, FileOk, ClosedRange, Isolated, Convex;
    if level == 0 {
      ClosedRangeIsolates(files, b, e);
    } else {
      OverlappingIsConvex(files, b, e);
    }
  }

  /** Growing an unsplit pick over its own range leaves it unsplit. */
  lemma PickRangeUnsplit(v: Version, level: nat, core: seq<File>, lo: IKey, hi: IKey, picked: seq<File>, n: nat,
                         b: Option<Bytes>, e: Option<Bytes>)
    requires VersionOk(v) && level < |v| && Unsplit(core) && IsSmallest(core, lo) && IsLargest(core, hi)
    requires Chained(picked, n) && picked[..n] == Overlapping(v[level], b, e) && b.Some? && e.Some?
    requires level > 0 ==> b == Some(lo.user) && e == Some(hi.user)
    requires level == 0 ==> ClosedRange(v[level], b, e)
    requires Includes(b, e, Some(lo.user), Some(hi.user)) && Least(v[level], Some(lo.user), Some(hi.user), b, e)
    ensures Unsplit(core + picked)
  {
    assert forall f :: f in v[level] ==> FileOk(f);
    hide VersionOk, Unsplit, IsSmallest, IsLargest, Least, ClosedRange, FileOk, Chained;
    if level == 0 {
      LeastUnsplit(v[level], core, lo, hi, b, e);
    } else {
      MoreUnsplit(core, Overlapping(v[level], b, e), lo, hi);
    }
    ChainUnsplit(core, picked, n);
  }

  lemma InsideRange(v: Version, level: nat, in0: seq<File>, in1: seq<File>, start: IKey, limit: IKey)
    requires VersionOk(v) && level < |v| && PickedFrom(v[level], in0)
    requires IsSmallest(in0 + in1, start) && IsLargest(in0 + in1, limit)
    ensures forall f :: f in in0 ==> Overlaps(f, Some(start.user), Some(limit.user))
  {
    forall f | f in in0
      ensures Overlaps(f, Some(start.user), Some(limit.user))
    {
      assert f in in0 + in1 && f in v[level] && FileOk(f);
      InRange(f, f.entries[0]);
    }
  }

  /** A pick without boundary files and the next level's files that meet it. */
  lemma PickIsSelected(v: Version, level: nat, in0: seq<File>, lo: IKey, hi: IKey)
    requires VersionOk(v) && level + 1 < |v| && GoodPick(v[level], level, in0) && IsSmallest(in0, lo)
    requires IsLargest(in0, hi)
    requires forall g :: g in v[level] ==> !IsBoundary(g, hi)
    ensures Selected(v, level, in0, Overlapping(v[level + 1], Some(lo.user), Some(hi.user)))
  {
    PickIsClosed(v, level, in0, hi);
  }

  /** The next level's files that meet a pick leave it unsplit. */
  lemma CompletedUnsplit(v: Version, level: nat, picked: seq<File>, in0: seq<File>, lo: IKey, hi: IKey)
    requires level + 1 < |v| && Chained(in0, |picked|) && picked <= in0 && IsSmallest(in0, lo) && IsLargest(in0, hi)
    ensures Unsplit(picked) ==> Unsplit(in0 + Overlapping(v[level + 1], Some(lo.user), Some(hi.user)))
  {
    hide Unsplit, Chained, IsSmallest, IsLargest;
    if Unsplit(picked) {
      assert [] + in0[..|picked|] == picked && [] + in0 == in0;
      ChainUnsplit([], in0, |picked|);
      MoreUnsplit(in0, Overlapping(v[level + 1], Some(lo.user), Some(hi.user)), lo, hi);
    }
  }

  /** A range around more files is wider. */
  lemma WiderRange(files: seq<File>, more: seq<File>, lo: IKey, hi: IKey, lo': IKey, hi': IKey)
    requires IsSmallest(files, lo) && IsLargest(files, hi) && IsSmallest(more, lo') && IsLargest(more, hi')
    requires forall f :: f in files ==> f in more
    ensures Ord(lo'.user) <= Ord(lo.user) && Ord(hi.user) <= Ord(hi'.user)
  {
    var a :| a in files && a.smallest == lo;
    var z :| z in files && z.largest == hi;
    assert AtMost(lo', a.smallest) && AtMost(z.largest, hi');
  }

  /** A pick grown as far as that takes no further file of the next level is as unsplit as it was. */
  lemma GrownUnsplit(v: Version, level: nat, in0: seq<File>, in1: seq<File>, grown0: seq<File>, grown1: seq<File>,
                     smallest: IKey, largest: IKey, lo: IKey, hi: IKey)
    requires level + 1 < |v| && IsSmallest(in0, smallest) && IsLargest(in0, largest) && IsSmallest(grown0, lo)
    requires IsLargest(grown0, hi)
    requires in1 == Overlapping(v[level + 1], Some(smallest.user), Some(largest.user))
    requires grown1 == Overlapping(v[level + 1], Some(lo.user), Some(hi.user))
    requires (forall f :: f in in0 ==> f in grown0) && Unsplit((in0 + in1) + grown0)
    ensures Unsplit(grown0 + grown1)
  {
    WiderRange(in0, grown0, smallest, largest, lo, hi);
    var all := (in0 + in1) + grown0;
    GrownStep(all, grown0, grown1, lo, hi);
    hide Unsplit, IsSmallest, IsLargest;
    SameFilesUnsplit(all + grown1, grown0 + grown1);
  }

  lemma GrownStep(all: seq<File>, grown0: seq<File>, grown1: seq<File>, lo: IKey, hi: IKey)
    requires Unsplit(all) && IsSmallest(grown0, lo) && IsLargest(grown0, hi) && forall f :: f in grown0 ==> f in all
    requires forall g :: g in grown1 ==> Overlaps(g, Some(lo.user), Some(hi.user))
    ensures Unsplit(all + grown1)
  {
    var a :| a in grown0 && a.smallest == lo;
    var z :| z in grown0 && z.largest == hi;
    assert a in all && z in all;
    forall b, e | Ord(b) <= Ord(e) && Avoids(all + grown1, b, e)
      ensures OneSide(all + grown1, b, e)
    {
      assert Avoids(all, b, e) by {
        assert forall f :: f in all ==> f in all + grown1;
      }
      assert forall g :: g in grown1 ==> g in all + grown1 && !Overlaps(g, Some(b), Some(e));
    }
  }

  /** The range as a level is searched for it: as it is, or on level 0 the least closed one around it. */
  ghost predicate RangeAround(files: seq<File>, level: nat, begin: Option<Bytes>, end: Option<Bytes>, b: Option<Bytes>,
                              e: Option<Bytes>)
  {
    && (level > 0 ==> b == begin && e == end)
    && (level == 0 ==> ClosedRange(files, b, e) && Includes(b, e, begin, end) && Least(files, begin, end, b, e))
  }

  /** The files of the level that meet the range of these files, with boundary files. */
  ghost predicate Expansion(v: Version, level: nat, around: seq<File>, expanded: seq<File>)
    requires level < |v|
  {
    exists lo, hi, b, e ::
      && IsSmallest(around, lo) && IsLargest(around, hi)
      && RangeAround(v[level], level, Some(lo.user), Some(hi.user), b, e)
      && BoundaryRun(v[level], Overlapping(v[level], b, e), expanded)
  }

  /** The files that meet the range of a pick. */
  ghost predicate MeetRange(files: seq<File>, picked: seq<File>, meeting: seq<File>)
  {
    exists lo, hi :: IsSmallest(picked, lo) && IsLargest(picked, hi) &&
                     meeting == Overlapping(files, Some(lo.user), Some(hi.user))
  }

  /** Growing is free: it adds files, the bytes stay below 25 files, and the next level's files stay as many. */
  ghost predicate MayGrow(v: Version, level: nat, core: seq<File>, in1: seq<File>, expanded: seq<File>,
                          maxFileSize: nat)
    requires level + 1 < |v|
  {
    && in1 != [] && |expanded| > |core|
    && TotalFileSize(in1) + TotalFileSize(expanded) < 25 * maxFileSize
    && exists more :: MeetRange(v[level + 1], expanded, more) && |more| == |in1|
  }

  /**
   How inputs come from a pick: with its boundary files it is the core; the next level gives the files
   that meet the core; and the core grows to what meets both, if that is free.
   */
  ghost predicate SetUp(v: Version, level: nat, picked: seq<File>, core: seq<File>, expanded: seq<File>,
                        maxFileSize: nat, in0: seq<File>, in1: seq<File>)
    requires level + 1 < |v|
  {
    && BoundaryRun(v[level], picked, core) && MeetRange(v[level + 1], core, in1)
    && (in1 != [] ==> Expansion(v, level, core + in1, expanded))
    && in0 == if MayGrow(v, level, core, in1, expanded, maxFileSize) then expanded else core
  }

  lemma {:induction false} WiderOverlaps(files: seq<File>, b: Bytes, e: Bytes, b': Bytes, e': Bytes)
    requires Ord(b') <= Ord(b) && Ord(e) <= Ord(e')
    ensures var few, more := Overlapping(files, Some(b), Some(e)), Overlapping(files, Some(b'), Some(e'));
            |few| <= |more| && (|few| == |more| ==> few == more)
  {
    if files != [] {
      WiderOverlaps(files[..|files| - 1], b, e, b', e');
    }
  }

  /** Completes a pick of `level` with the files of the next level, growing it when that is free. */
  method SetupOtherInputs(v: Version, level: nat, picked: seq<File>, maxFileSize: nat)
    returns (in0: seq<File>, in1: seq<File>, ghost core: seq<File>, ghost expanded: seq<File>)
    requires VersionOk(v) && level + 1 < |v| && GoodPick(v[level], level, picked)
    ensures Selected(v, level, in0, in1) && PickedFrom(in0, picked)
    ensures Unsplit(picked) ==> Unsplit(in0 + in1)
    ensures SetUp(v, level, picked, core, expanded, maxFileSize, in0, in1)
  {
    hide Unsplit, Chained, Least, ClosedRange, Selected, VersionOk, IsSmallest, IsLargest, BoundaryRun, Expansion;
    hide TotalFileSize, MeetRange, MayGrow, Overlapping, GoodPick, Convex, Isolated, DeepLevelOk, FileOk, IsBoundary;
    hide PickedFrom, SetUp, Includes, Overlaps;
    LevelFiles(v, level, picked);
    in0 := AddBoundaryInputs(v[level], picked);
    StillGood(v, level, picked, in0);
    core, expanded := in0, in0;
    var smallest, largest := GetRange(in0);
    ghost var b, e;
    in1, b, e := GetOverlappingInputs(v[level + 1], level + 1, Some(smallest.user), Some(largest.user));
    CoreIs(v, level, picked, in0, smallest, largest);
    if in1 != [] {
      in0, in1, expanded := GrowInputs(v, level, in0, in1, smallest, largest, maxFileSize);
      PickedOn(picked, core, in0);
    } else {
      NothingMet(v, level, core, expanded, maxFileSize);
      PickedOn(picked, core, core);
    }
    SetUpBy(v, level, picked, core, expanded, maxFileSize, in0, in1);
  }

  lemma CoreIs(v: Version, level: nat, picked: seq<File>, core: seq<File>, lo: IKey, hi: IKey)
    requires VersionOk(v) && level + 1 < |v| && GoodPick(v[level], level, core) && BoundaryRun(v[level], picked, core)
    requires Chained(core, |picked|) && IsSmallest(core, lo) && IsLargest(core, hi)
    ensures var in1 := Overlapping(v[level + 1], Some(lo.user), Some(hi.user));
            && Selected(v, level, core, in1) && MeetRange(v[level + 1], core, in1)
            && (Unsplit(picked) ==> Unsplit(core + in1)) && picked <= core
  {
    assert forall g :: g in v[level] ==> !IsBoundary(g, hi);
    hide VersionOk, GoodPick, Chained, IsSmallest, IsLargest, Overlapping, Selected, Unsplit;
    PickIsSelected(v, level, core, lo, hi);
    CompletedUnsplit(v, level, picked, core, lo, hi);
    MeetIs(v[level + 1], core, lo, hi);
  }

  lemma PickedOn(picked: seq<File>, core: seq<File>, in0: seq<File>)
    requires picked <= core && (PickedFrom(in0, core) || in0 == core)
    ensures PickedFrom(in0, picked)
  {
  }

  lemma SetUpBy(v: Version, level: nat, picked: seq<File>, core: seq<File>, expanded: seq<File>, maxFileSize: nat,
                in0: seq<File>, in1: seq<File>)
    requires level + 1 < |v| && BoundaryRun(v[level], picked, core) && MeetRange(v[level + 1], core, in1)
    requires in1 != [] ==> Expansion(v, level, core + in1, expanded)
    requires in0 == if MayGrow(v, level, core, in1, expanded, maxFileSize) then expanded else core
    ensures SetUp(v, level, picked, core, expanded, maxFileSize, in0, in1)
  {
    hide BoundaryRun, MeetRange, Expansion, MayGrow;
  }

  lemma LevelFiles(v: Version, level: nat, picked: seq<File>)
    requires VersionOk(v) && level + 1 < |v| && GoodPick(v[level], level, picked)
    ensures picked != [] && PickedFrom(v[level], picked)
    ensures (forall f :: f in v[level] ==> FileOk(f)) && forall f :: f in v[level + 1] ==> FileOk(f)
  {
    hide FileOk, Listed, LayersOk, DeepLevelOk, LevelZeroOk, Convex, Isolated;
  }

  lemma StillGood(v: Version, level: nat, picked: seq<File>, run: seq<File>)
    requires VersionOk(v) && level < |v| && GoodPick(v[level], level, picked) && picked <= run
    requires PickedFrom(v[level], run) && (DeepLevelOk(v[level]) && Convex(v[level], picked) ==> Convex(v[level], run))
    requires Isolated(v[level], picked) ==> run == picked
    ensures GoodPick(v[level], level, run) && run != []
  {
    hide FileOk, Listed, LayersOk, DeepLevelOk, LevelZeroOk, Convex, Isolated;
  }

  lemma MeetIs(files: seq<File>, picked: seq<File>, lo: IKey, hi: IKey)
    requires IsSmallest(picked, lo) && IsLargest(picked, hi)
    ensures MeetRange(files, picked, Overlapping(files, Some(lo.user), Some(hi.user)))
  {
  }

  lemma NothingMet(v: Version, level: nat, core: seq<File>, expanded: seq<File>, maxFileSize: nat)
    requires level + 1 < |v|
    ensures !MayGrow(v, level, core, [], expanded, maxFileSize)
  {
  }

  lemma GrownPick(v: Version, level: nat, in0: seq<File>, in1: seq<File>, smallest: IKey, largest: IKey, start: IKey,
                  limit: IKey, grown0: seq<File>, n: nat, b: Option<Bytes>, e: Option<Bytes>, lo: IKey, hi: IKey)
    requires VersionOk(v) && level + 1 < |v| && IsSmallest(in0, smallest) && IsLargest(in0, largest)
    requires in1 == Overlapping(v[level + 1], Some(smallest.user), Some(largest.user))
    requires (forall f :: f in in0 ==> f in grown0)
    requires IsSmallest(in0 + in1, start) && IsLargest(in0 + in1, limit) && IsSmallest(grown0, lo)
    requires IsLargest(grown0, hi)
    requires Chained(grown0, n) && grown0[..n] == Overlapping(v[level], b, e) && b.Some? && e.Some?
    requires level > 0 ==> b == Some(start.user) && e == Some(limit.user)
    requires level == 0 ==> ClosedRange(v[level], b, e)
    requires Includes(b, e, Some(start.user), Some(limit.user))
    requires Least(v[level], Some(start.user), Some(limit.user), b, e)
    ensures Unsplit(in0 + in1) ==> Unsplit(grown0 + Overlapping(v[level + 1], Some(lo.user), Some(hi.user)))
  {
    hide Unsplit, Chained, Least, ClosedRange, VersionOk, IsSmallest, IsLargest, Overlaps, Includes;
    if Unsplit(in0 + in1) {
      PickRangeUnsplit(v, level, in0 + in1, start, limit, grown0, n, b, e);
      GrownUnsplit(v, level, in0, in1, grown0, Overlapping(v[level + 1], Some(lo.user), Some(hi.user)), smallest,
                   largest, lo, hi);
    }
  }

  /** As many files of the next level meet the wider range only if they are the same files. */
  lemma SameMeeting(v: Version, level: nat, core: seq<File>, in1: seq<File>, smallest: IKey, largest: IKey,
                    grown: seq<File>, lo: IKey, hi: IKey, maxFileSize: nat)
    requires level + 1 < |v| && IsSmallest(core, smallest) && IsLargest(core, largest) && IsSmallest(grown, lo)
    requires IsLargest(grown, hi) && (forall f :: f in core ==> f in grown) && in1 != []
    requires in1 == Overlapping(v[level + 1], Some(smallest.user), Some(largest.user))
    ensures var more := Overlapping(v[level + 1], Some(lo.user), Some(hi.user));
            && (|more| == |in1| ==> more == in1)
            && (MayGrow(v, level, core, in1, grown, maxFileSize)
                <==> |grown| > |core| && TotalFileSize(in1) + TotalFileSize(grown) < 25 * maxFileSize &&
                     |more| == |in1|)
  {
    hide Overlapping, IsSmallest, IsLargest, TotalFileSize;
    WiderRange(core, grown, smallest, largest, lo, hi);
    WiderOverlaps(v[level + 1], smallest.user, largest.user, lo.user, hi.user);
    var more := Overlapping(v[level + 1], Some(lo.user), Some(hi.user));
    assert MeetRange(v[level + 1], grown, more);
    if x :| MeetRange(v[level + 1], grown, x) && |x| == |in1| {
      var a, z :| IsSmallest(grown, a) && IsLargest(grown, z) &&
                  x == Overlapping(v[level + 1], Some(a.user), Some(z.user));
      SameSmallest(grown, a, lo);
      SameLargest(grown, z, hi);
    }
  }

  lemma NoGrowth(v: Version, level: nat, core: seq<File>, in1: seq<File>, expanded: seq<File>, maxFileSize: nat)
    requires level + 1 < |v|
    requires !(|expanded| > |core| && TotalFileSize(in1) + TotalFileSize(expanded) < 25 * maxFileSize)
    ensures !MayGrow(v, level, core, in1, expanded, maxFileSize)
  {
  }

  lemma ExpansionIs(v: Version, level: nat, around: seq<File>, lo: IKey, hi: IKey, b: Option<Bytes>, e: Option<Bytes>,
                    expanded: seq<File>)
    requires level < |v| && IsSmallest(around, lo) && IsLargest(around, hi)
    requires level > 0 ==> b == Some(lo.user) && e == Some(hi.user)
    requires level == 0 ==> ClosedRange(v[0], b, e)
    requires Includes(b, e, Some(lo.user), Some(hi.user)) && Least(v[level], Some(lo.user), Some(hi.user), b, e)
    requires BoundaryRun(v[level], Overlapping(v[level], b, e), expanded)
    ensures Expansion(v, level, around, expanded)
  {
    hide IsSmallest, IsLargest, ClosedRange, Includes, Least, BoundaryRun, Overlapping;
    assert RangeAround(v[level], level, Some(lo.user), Some(hi.user), b, e);
  }

  lemma SameSmallest(files: seq<File>, a: IKey, b: IKey)
    requires IsSmallest(files, a) && IsSmallest(files, b)
    ensures a == b
  {
    var f :| f in files && f.smallest == a;
    var g :| g in files && g.smallest == b;
    assert AtMost(a, b) && AtMost(b, a);
  }

  lemma SelectedFrom(v: Version, level: nat, in0: seq<File>, in1: seq<File>)
    requires level + 1 < |v| && Selected(v, level, in0, in1)
    ensures in0 + in1 != [] && PickedFrom(v[level], in0)
  {
  }

  /** Takes more files of `level` if the next level's files stay as many and the sizes allow it. */
  method GrowInputs(v: Version, level: nat, in0: seq<File>, in1: seq<File>, ghost smallest: IKey, ghost largest: IKey,
                    maxFileSize: nat)
    returns (grown0: seq<File>, grown1: seq<File>, ghost expanded: seq<File>)
    requires VersionOk(v) && level + 1 < |v| && Selected(v, level, in0, in1) && IsSmallest(in0, smallest)
    requires IsLargest(in0, largest) && in1 != []
    requires in1 == Overlapping(v[level + 1], Some(smallest.user), Some(largest.user))
    ensures Selected(v, level, grown0, grown1) && PickedFrom(grown0, in0) && grown1 == in1
    ensures Unsplit(in0 + in1) ==> Unsplit(grown0 + grown1)
    ensures Expansion(v, level, in0 + in1, expanded)
    ensures grown0 == if MayGrow(v, level, in0, in1, expanded, maxFileSize) then expanded else in0
  {
    hide Unsplit, Chained, Least, ClosedRange, VersionOk, IsSmallest, IsLargest, Overlaps, GoodPick, RangeAround;
    hide IsBoundary, Selected, Includes, TotalFileSize, BoundaryRun, MeetRange, Expansion, MayGrow, Overlapping;
    SelectedFrom(v, level, in0, in1);
    var allStart, allLimit := GetRange(in0 + in1);
    InsideRange(v, level, in0, in1, allStart, allLimit);
    grown0, grown1 := in0, in1;
    ghost var n, b0, e0, b, e;
    var expanded0;
    expanded0, n, b0, e0 := PickRange(v, level, Some(allStart.user), Some(allLimit.user));
    ExpansionIs(v, level, in0 + in1, allStart, allLimit, b0, e0, expanded0);
    expanded := expanded0;
    if |expanded0| > |in0| && TotalFileSize(in1) + TotalFileSize(expanded0) < 25 * maxFileSize {
      var newStart, newLimit := GetRange(expanded0);
      var expanded1;
      expanded1, b, e := GetOverlappingInputs(v[level + 1], level + 1, Some(newStart.user), Some(newLimit.user));
      SameMeeting(v, level, in0, in1, smallest, largest, expanded0, newStart, newLimit, maxFileSize);
      if |expanded1| == |in1| {
        PickIsSelected(v, level, expanded0, newStart, newLimit);
        GrownPick(v, level, in0, in1, smallest, largest, allStart, allLimit, expanded0, n, b0, e0, newStart, newLimit);
        grown0, grown1 := expanded0, expanded1;
      }
    } else {
      NoGrowth(v, level, in0, in1, expanded0, maxFileSize);
    }
  }

  lemma SingleIsConvex(files: seq<File>, file: File)
    requires (forall f :: f in files ==> FileOk(f)) && file in files
    ensures Convex(files, [file])
  {
    forall g | g in files
      ensures !Between(file, g, file)
    {
      InRange(g, g.entries[0]);
      InRange(file, file.entries[0]);
    }
  }

  /** The last compaction of the level went past this file. */
  predicate Done(f: File, pointer: Option<IKey>)
  {
    pointer.Some? && AtMost(f.largest, pointer.value)
  }

  predicate AllDone(files: seq<File>, n: nat, pointer: Option<IKey>)
    requires n <= |files|
  {
    forall j :: 0 <= j < n ==> Done(files[j], pointer)
  }

  /** The file after `pointer`, where the last compaction of the level stopped, or the first file. */
  method NextFile(files: seq<File>, pointer: Option<IKey>) returns (file: File)
    requires files != []
    ensures file in files
    ensures (exists f :: f in files && !Done(f, pointer)) ==>
              !Done(file, pointer) && exists i :: 0 <= i < |files| && files[i] == file && AllDone(files, i, pointer)
    ensures (forall f :: f in files ==> Done(f, pointer)) ==> file == files[0]
  {
    for i := 0 to |files|
      invariant AllDone(files, i, pointer)
    {
      if !Done(files[i], pointer) {
        return files[i];
      }
    }
    file := files[0];
  }

  lemma SingleUnsplit(file: File)
    ensures Unsplit([file])
  {
    assert file in [file];
    assert forall b, e :: Avoids([file], b, e) ==> !Overlaps(file, Some(b), Some(e));
  }

  lemma SingleRange(file: File)
    ensures IsSmallest([file], file.smallest) && IsLargest([file], file.largest)
  {
    assert file in [file];
  }

  /** A compaction triggered by size or seeks starts from one file of the level, and has no gap. */
  method PickCompaction(v: Version, level: nat, file: File, maxFileSize: nat)
    returns (in0: seq<File>, in1: seq<File>, ghost start: seq<File>, ghost core: seq<File>, ghost expanded: seq<File>)
    requires VersionOk(v) && level + 1 < |v| && file in v[level]
    ensures Selected(v, level, in0, in1) && file in in0
    ensures Unsplit(in0 + in1)
    ensures if level > 0 then start == [file] else Around(v[0], file, start)
    ensures SetUp(v, level, start, core, expanded, maxFileSize, in0, in1)
  {
    var picked := [file];
    SingleUnsplit(file);
    if level == 0 {
      ghost var b, e;
      picked, b, e := GetOverlappingInputs(v[0], 0, Some(file.smallest.user), Some(file.largest.user));
      assert FileOk(file);
      InRange(file, file.entries[0]);
      assert Overlaps(file, b, e) && file in picked;
      ClosedRangeIsolates(v[0], b, e);
      FromOneFile(v, file, b, e);
    } else {
      SingleIsConvex(v[level], file);
    }
    start := picked;
    in0, in1, core, expanded := SetupOtherInputs(v, level, picked, maxFileSize);
  }

  /** On level 0: the files that meet the least closed range around a file. */
  ghost predicate Around(files: seq<File>, file: File, picked: seq<File>)
  {
    exists b, e :: RangeAround(files, 0, Some(file.smallest.user), Some(file.largest.user), b, e) &&
                   picked == Overlapping(files, b, e)
  }

  lemma FromOneFile(v: Version, file: File, b: Option<Bytes>, e: Option<Bytes>)
    requires VersionOk(v) && file in Overlapping(v[0], b, e) && ClosedRange(v[0], b, e) && b.Some? && e.Some?
    requires Includes(b, e, Some(file.smallest.user), Some(file.largest.user))
    requires Least(v[0], Some(file.smallest.user), Some(file.largest.user), b, e)
    ensures Unsplit(Overlapping(v[0], b, e))
  {
    assert forall f :: f in v[0] ==> FileOk(f);
    SingleUnsplit(file);
    SingleRange(file);
    hide VersionOk, Unsplit, Least, ClosedRange, IsSmallest, IsLargest;
    LeastUnsplit(v[0], [file], file.smallest, file.largest, b, e);
    SameFilesUnsplit([file] + Overlapping(v[0], b, e), Overlapping(v[0], b, e));
  }

  /** Filtering a listed level keeps its order. */
  lemma {:induction false} OverlappingListed(files: seq<File>, b: Option<Bytes>, e: Option<Bytes>)
    requires Listed(files)
    ensures Listed(Overlapping(files, b, e))
  {
    if files != [] {
      var front := files[..|files| - 1];
      OverlappingListed(front, b, e);
      var r := Overlapping(front, b, e);
      forall i | 0 <= i < |r|
        ensures BySmallest(r[i], files[|files| - 1])
      {
        assert r[i] in front;
      }
    }
  }

  /** Cutting an ordered run short leaves a run. */
  lemma PrefixIsConvex(files: seq<File>, run: seq<File>, n: nat)
    requires (forall f :: f in files ==> FileOk(f)) && PickedFrom(files, run) && Listed(run) && Convex(files, run)
    requires n <= |run|
    ensures Convex(files, run[..n])
  {
    forall f, g, h | f in run[..n] && h in run[..n] && g in files && Between(f, g, h)
      ensures g in run[..n]
    {
      assert f in run && h in run;
      var i :| 0 <= i < n && run[i] == h;
      var j :| 0 <= j < |run| && run[j] == g;
      InRange(g, g.entries[0]);
      assert Less(g.smallest, h.smallest);
      assert i < j ==> BySmallest(h, g);
    }
  }

  /** The first `n` files are the shortest start of the run that reaches the limit, or all of it. */
  ghost predicate Reaches(run: seq<File>, limit: nat, n: nat)
  {
    && 1 <= n <= |run| && (n < |run| ==> TotalFileSize(run[..n]) >= limit)
    && (n > 1 ==> TotalFileSize(run[..n - 1]) < limit)
  }

  /** How many leading files reach the byte limit of a manual compaction. */
  method LimitRun(run: seq<File>, limit: nat) returns (n: nat)
    requires run != []
    ensures Reaches(run, limit, n)
  {
    var total := 0;
    n := 0;
    while n < |run|
      invariant 0 <= n <= |run| && total == TotalFileSize(run[..n])
      invariant n > 0 ==> total < limit
    {
      TotalFileSizeSnoc(run, n);
      total := total + run[n].size;
      n := n + 1;
      if total >= limit {
        return;
      }
    }
    assert TotalFileSize(run[..n - 1]) <= total by {
      TotalFileSizeSnoc(run, n - 1);
    }
  }

  lemma {:induction false} TotalFileSizeSnoc(run: seq<File>, n: nat)
    requires n < |run|
    ensures TotalFileSize(run[..n + 1]) == TotalFileSize(run[..n]) + run[n].size
    decreases n
  {
    if n == 0 {
      assert run[..1][1..] == [];
    } else {
      assert run[..n + 1][1..] == run[1..][..n] && run[..n][1..] == run[1..][..n - 1];
      TotalFileSizeSnoc(run[1..], n - 1);
    }
  }

  /** Where a manual compaction starts: the files that meet the range, below level 0 only until the limit is reached. */
  ghost predicate StartsManual(files: seq<File>, level: nat, begin: Option<Bytes>, end: Option<Bytes>, limit: nat,
                               start: seq<File>)
  {
    if level == 0 then exists b, e :: RangeAround(files, 0, begin, end, b, e) && start == Overlapping(files, b, e)
    else
      var run := Overlapping(files, begin, end);
      exists n: nat :: Reaches(run, limit, n) && start == run[..n]
  }

  /** A manual compaction starts from the files meeting a range, cut short below level 0. */
  method CompactRange(v: Version, level: nat, begin: Option<Bytes>, end: Option<Bytes>, maxFileSize: nat)
    returns (found: bool, in0: seq<File>, in1: seq<File>, ghost start: seq<File>, ghost core: seq<File>,
             ghost expanded: seq<File>)
    requires VersionOk(v) && level + 1 < |v|
    ensures found ==> Selected(v, level, in0, in1)
    ensures found ==> forall f :: f in v[0] && level == 0 && Overlaps(f, begin, end) ==> f in in0
    ensures found && level > 0 ==> exists f :: f in in0 && Overlaps(f, begin, end)
    ensures !found ==> forall f :: f in v[level] ==> !Overlaps(f, begin, end)
    ensures found ==> StartsManual(v[level], level, begin, end, maxFileSize, start)
    ensures found ==> SetUp(v, level, start, core, expanded, maxFileSize, in0, in1)
  {
    hide SetUp, Selected, BoundaryRun, TotalFileSize, Unsplit;
    var files := v[level];
    start, core, expanded := [], [], [];
    ghost var b, e;
    var inputs;
    in0, in1 := [], [];
    inputs, b, e := GetOverlappingInputs(files, level, begin, end);
    if inputs == [] {
      forall f | f in files
        ensures !Overlaps(f, begin, end)
      {
        assert f !in inputs;
      }
      return false, [], [], [], [], [];
    }
    ghost var first := inputs[0];
    assert first in inputs && (level > 0 ==> Overlaps(first, begin, end));
    if level > 0 {
      var n := LimitRun(inputs, maxFileSize);
      OverlappingListed(files, b, e);
      OverlappingIsConvex(files, b, e);
      PrefixIsConvex(files, inputs, n);
      inputs := inputs[..n];
      assert first in inputs;
    } else {
      ClosedRangeIsolates(files, b, e);
    }
    found, start := true, inputs;
    in0, in1, core, expanded := SetupOtherInputs(v, level, inputs, maxFileSize);
  }
}
