/**
 Where file numbers come from. A number is handed out once by a counter; an edit adds a file under
 a number handed out and not used yet, or moves a file down from a level it is deleted from. This
 is why no level is ever given a number twice.
 */
module FileNumbers {
  import opened Coding
  import opened VersionEdits
  import opened Manifest

  /** One list of files for each level. */
  type Levels = s: seq<seq<FileMeta>> | |s| == LEVELS witness [[], [], [], [], [], [], []]

  /** The file is one of those on the level that have the number. */
  ghost predicate HasNumber(files: seq<FileMeta>, n: u64) {
    exists f :: f in files && f.number == n
  }

  /**
   `adds` lists every file ever added to each level, and `v` those still there. Numbers handed out
   but unused are new everywhere, and a file still on a level was never on a deeper one.
   */
  ghost predicate Traced(adds: Levels, v: Levels, issued: set<u64>, next: nat) {
    && (forall l, f :: 0 <= l < LEVELS && f in adds[l] ==> f.number < next && f.number !in issued)
    && (forall n :: n in issued ==> n < next)
    && (forall l :: 0 <= l < LEVELS ==> DistinctNumbers(adds[l]))
    && (forall l, f :: 0 <= l < LEVELS && f in v[l] ==> f in adds[l])
    && (forall l, m, n :: 0 <= l < m < LEVELS && HasNumber(v[l], n) ==> !HasNumber(adds[m], n))
  }

  /** The edit takes the file away from a level above. */
  ghost predicate Moves(e: Edit, v: Levels, level: nat, n: u64) {
    exists l: nat :: l < level && l < LEVELS && (l, n) in e.deleted && HasNumber(v[l], n)
  }

  /** Each added file has its own number: one handed out and not used, or that of a file moved down. */
  ghost predicate EditOk(e: Edit, v: Levels, issued: set<u64>) {
    && (forall i, j :: 0 <= i < j < |e.added| ==> e.added[i].1.number != e.added[j].1.number)
    && (forall p :: p in e.added ==> p.0 < LEVELS && (p.1.number in issued || Moves(e, v, p.0, p.1.number)))
  }

  function NumbersOf(added: seq<(nat, FileMeta)>): set<u64> {
    set p | p in added :: p.1.number
  }

  lemma {:induction false} AddedAtIs(added: seq<(nat, FileMeta)>, level: nat)
    ensures forall f :: f in AddedAt(added, level) <==> (level, f) in added
    ensures (forall i, j :: 0 <= i < j < |added| ==> added[i].1.number != added[j].1.number) ==>
              DistinctNumbers(AddedAt(added, level))
    decreases |added|
  {
    if added != [] {
      var front, last := added[..|added| - 1], added[|added| - 1];
      assert added == front + [last];
      AddedAtIs(front, level);
      if forall i, j :: 0 <= i < j < |added| ==> added[i].1.number != added[j].1.number {
        assert forall i :: 0 <= i < |front| ==> front[i] == added[i];
        forall f | f in AddedAt(front, level)
          ensures f.number != last.1.number
        {
          var i :| 0 <= i < |front| && front[i] == (level, f);
        }
      }
    }
  }

  /** A number that an edit adds to a level is new there. */
  lemma NewThere(adds: Levels, v: Levels, issued: set<u64>, next: nat, e: Edit, level: nat, f: FileMeta)
    requires Traced(adds, v, issued, next) && EditOk(e, v, issued) && (level, f) in e.added
    ensures level < LEVELS && f.number < next && !HasNumber(adds[level], f.number)
  {
    if f.number !in issued {
      var l: nat :| l < level && l < LEVELS && (l, f.number) in e.deleted && HasNumber(v[l], f.number);
      var g :| g in v[l] && g.number == f.number;
      assert g in adds[l];
    }
  }

  function WithAdded(adds: Levels, e: Edit): Levels {
    seq(LEVELS, (l: nat) requires l < LEVELS => adds[l] + AddedAt(e.added, l))
  }

  /** What remains on a level after an edit. */
  ghost predicate AfterAt(files: seq<FileMeta>, e: Edit, files': seq<FileMeta>, l: nat) {
    forall f :: f in files' <==>
                (f in files || f in AddedAt(e.added, l)) && f.number !in DeletedAt(e, l) - Numbers(AddedAt(e.added, l))
  }

  ghost predicate After(v: Levels, e: Edit, v': Levels) {
    forall l :: 0 <= l < LEVELS ==> AfterAt(v[l], e, v'[l], l)
  }

  lemma HasIt(files: seq<FileMeta>, f: FileMeta)
    requires f in files
    ensures HasNumber(files, f.number)
  {
  }

  /** A file added by the edit is not of the number of a file ever added deeper. */
  lemma AddedAbove(adds: Levels, v: Levels, issued: set<u64>, next: nat, e: Edit, l: nat, m: nat, f: FileMeta,
                   g: FileMeta)
    requires Traced(adds, v, issued, next) && EditOk(e, v, issued)
    requires l < m < LEVELS && (l, f) in e.added && g in adds[m]
    ensures f.number != g.number
  {
    HasIt(adds[m], g);
    if f.number !in issued {
      var k: nat :| k < l && k < LEVELS && (k, f.number) in e.deleted && HasNumber(v[k], f.number);
      assert !HasNumber(adds[m], f.number);
    }
  }

  /** A file that stays is not of the number of one that the edit adds deeper. */
  lemma StaysAbove(adds: Levels, v: Levels, issued: set<u64>, next: nat, e: Edit, l: nat, m: nat, f: FileMeta,
                   g: FileMeta)
    requires Traced(adds, v, issued, next) && EditOk(e, v, issued)
    requires l < m < LEVELS && f in v[l] && f.number !in DeletedAt(e, l) - Numbers(AddedAt(e.added, l))
    requires (m, g) in e.added
    ensures f.number != g.number
  {
    AddedAtIs(e.added, l);
    HasIt(v[l], f);
    HasIt(adds[l], f);
    if g.number !in issued {
      var k: nat :| k < m && k < LEVELS && (k, g.number) in e.deleted && HasNumber(v[k], g.number);
      var h :| h in v[k] && h.number == g.number;
      HasIt(adds[k], h);
      if k == l {
        assert g.number in DeletedAt(e, l);
        forall x | x in AddedAt(e.added, l)
          ensures x.number != g.number
        {
          Elsewhere(e, l, m, x, g);
        }
      }
    }
  }

  lemma Elsewhere(e: Edit, l: nat, m: nat, f: FileMeta, g: FileMeta)
    requires forall i, j :: 0 <= i < j < |e.added| ==> e.added[i].1.number != e.added[j].1.number
    requires (l, f) in e.added && (m, g) in e.added && l != m
    ensures f.number != g.number
  {
    var i :| 0 <= i < |e.added| && e.added[i] == (l, f);
    var j :| 0 <= j < |e.added| && e.added[j] == (m, g);
    assert i < j || j < i;
  }

  /** A file still there is not of the same number as one ever added deeper. */
  lemma StillAbove(adds: Levels, v: Levels, issued: set<u64>, next: nat, e: Edit, v': Levels, l: nat, m: nat,
                   f: FileMeta, g: FileMeta)
    requires Traced(adds, v, issued, next) && EditOk(e, v, issued) && After(v, e, v')
    requires l < m < LEVELS && f in v'[l] && (g in adds[m] || (m, g) in e.added)
    ensures f.number != g.number
  {
    AddedAtIs(e.added, l);
    assert AfterAt(v[l], e, v'[l], l);
    if (l, f) in e.added {
      if g in adds[m] {
        AddedAbove(adds, v, issued, next, e, l, m, f, g);
      } else {
        Elsewhere(e, l, m, f, g);
      }
    } else {
      assert f in v[l];
      if g in adds[m] {
        HasIt(v[l], f);
        HasIt(adds[m], g);
      } else {
        StaysAbove(adds, v, issued, next, e, l, m, f, g);
      }
    }
  }

  lemma AppendDistinct(a: seq<FileMeta>, b: seq<FileMeta>)
    requires DistinctNumbers(a) && DistinctNumbers(b) && forall f :: f in b ==> !HasNumber(a, f.number)
    ensures DistinctNumbers(a + b)
  {
    forall i, j | 0 <= i < j < |a + b|
      ensures (a + b)[i].number != (a + b)[j].number
    {
      if i < |a| <= j {
        assert (a + b)[j] in b && (a + b)[i] in a;
      }
    }
  }

  /** Every edit that takes its numbers from the counter keeps them traced. */
  lemma TracedAfter(adds: Levels, v: Levels, issued: set<u64>, next: nat, e: Edit, v': Levels)
    requires Traced(adds, v, issued, next) && EditOk(e, v, issued) && After(v, e, v')
    ensures Traced(WithAdded(adds, e), v', issued - NumbersOf(e.added), next)
  {
    var adds' := WithAdded(adds, e);
    hide DeletedAt, AddedAt;
    forall l: nat | l < LEVELS
      ensures DistinctNumbers(adds'[l])
      ensures forall f :: f in adds'[l] ==> f.number < next && f.number !in issued - NumbersOf(e.added)
      ensures forall f :: f in v'[l] ==> f in adds'[l]
    {
      AddedAtIs(e.added, l);
      assert adds'[l] == adds[l] + AddedAt(e.added, l);
      forall f | f in AddedAt(e.added, l)
        ensures f.number < next && !HasNumber(adds[l], f.number) && f.number in NumbersOf(e.added)
      {
        NewThere(adds, v, issued, next, e, l, f);
        assert (l, f) in e.added;
      }
      AppendDistinct(adds[l], AddedAt(e.added, l));
      forall f | f in v'[l]
        ensures f in adds'[l]
      {
        assert AfterAt(v[l], e, v'[l], l);
      }
    }
    forall l, m, n | 0 <= l < m < LEVELS && HasNumber(v'[l], n)
      ensures !HasNumber(adds'[m], n)
    {
      var f :| f in v'[l] && f.number == n;
      AddedAtIs(e.added, m);
      forall g | g in adds'[m]
        ensures g.number != n
      {
        StillAbove(adds, v, issued, next, e, v', l, m, f, g);
      }
    }
  }

  /** Handing out the next number. */
  lemma TracedIssue(adds: Levels, v: Levels, issued: set<u64>, next: u64)
    requires Traced(adds, v, issued, next)
    ensures Traced(adds, v, issued + {next}, next + 1)
  {
  }

  /** Taking back the number handed out last; an older one is lost. */
  lemma TracedReuse(adds: Levels, v: Levels, issued: set<u64>, next: nat, n: u64)
    requires Traced(adds, v, issued, next) && n in issued
    ensures Traced(adds, v, issued - {n}, if next == n + 1 then n else next)
  {
  }
}
