/**
 What a damaged fragment costs: the record that it belongs to and the records that begin behind it
 in its block. All later records are delivered, and the reports can be counted.
 */
module LogLoss {
  import opened Keys
  import opened Coding
  import opened Log
  import opened LogDamage

  /** Where the first fragment of record `i` begins. */
  function Begin(crc: Crc, records: seq<Bytes>, i: nat): nat
    requires i <= |records|
  {
    var p := |LogOf(crc, records[..i])|;
    p + |Padding(Off(p))|
  }

  /** How many fragments a record, or what is left of one, takes. */
  function Count(offset: nat, left: nat): (n: nat)
    requires offset <= BLOCK
    decreases left, if Take(offset, left) == 0 then 1 else 0
  {
    var m := Take(offset, left);
    if m == left then 1
    else
      NextTakes(left - m);
      1 + Count(0, left - m)
  }

  lemma {:induction false} CountMore(offset: nat, left: nat)
    requires offset <= BLOCK
    ensures var m := Take(offset, left); Count(offset, left) == if m == left then 1 else 1 + Count(0, left - m)
  {
  }

  /** A fragment without a beginning is reported. */
  lemma LostStep(crc: Crc, file: Bytes, p: nat, end: bool)
    requires p <= |file| && PhysicalAt(crc, file, p).kind == TypeOf(false, end) && PhysicalAt(crc, file, p).reports == 0
    ensures var f := PhysicalAt(crc, file, p);
            var g, h := RecordAt(crc, file, p, [], false), RecordAt(crc, file, f.next, [], false);
            Alike(g, h) && g.reports == h.reports + 1
  {
    hide PhysicalAt;
  }

  /** What is left of a record whose beginning is lost is passed over, with a report for each fragment. */
  lemma {:induction false} TailSkipped(crc: Crc, file: Bytes, p: nat, data: Bytes, rest: Bytes)
    requires p <= |file| && file[p..] == Fragments(crc, Off(p), data, false) + rest
    ensures var r := p + |Fragments(crc, Off(p), data, false)|;
            && r <= |file| && Alike(RecordAt(crc, file, p, [], false), RecordAt(crc, file, r, [], false))
            && RecordAt(crc, file, p, [], false).reports
               == RecordAt(crc, file, r, [], false).reports + Count(Off(p), |data|)
    decreases |data|, if Take(Off(p), |data|) == 0 then 1 else 0
  {
    hide PhysicalAt, RecordAt, Fragments, Padding, Off, Take, TypeOf, Count;
    var m := Take(Off(p), |data|);
    var r := p + |Padding(Off(p))| + HEADER + m;
    assert file[..|file|] == file;
    FirstFragment(crc, file, |file|, p, data, false, rest);
    CountMore(Off(p), |data|);
    StartsInside(crc, file, p, data, rest);
    LostStep(crc, file, p, m == |data|);
    if m == |data| {
      LastLength(crc, Off(p), data, false);
    } else {
      RestOfRecord(crc, file, p, data, false, rest);
      NextTakes(|data| - m);
      TailSkipped(crc, file, r, data[m..], rest);
    }
  }

  lemma StartsInside(crc: Crc, file: Bytes, p: nat, data: Bytes, rest: Bytes)
    requires p <= |file| && file[p..] == Fragments(crc, Off(p), data, false) + rest
    ensures p + |Padding(Off(p))| + HEADER + Take(Off(p), |data|) <= |file|
  {
    hide Physical, Fragments, Padding, More, TypeOf, Off, Take;
    var m := Take(Off(p), |data|);
    var q := p + |Padding(Off(p))|;
    PieceAt(crc, file, p, data, false, rest);
    assert |file[q..]| >= HEADER + m;
  }

  /** Records that lie whole at the end of a file are delivered, whatever precedes them. */
  lemma {:induction false} LaterWhole(crc: Crc, records: seq<Bytes>, file: Bytes, j: nat)
    requires j <= |records| && |LogOf(crc, records[..j])| <= |LogOf(crc, records)| == |file|
    requires file[|LogOf(crc, records[..j])|..] == LogOf(crc, records)[|LogOf(crc, records[..j])|..]
    ensures AllFrom(crc, file, |LogOf(crc, records[..j])|) == (records[j..], 0)
    decreases |records| - j
  {
    hide AllFrom, LogOf, Fragments, Off;
    var p := |LogOf(crc, records[..j])|;
    if j == |records| {
      assert records[..j] == records && file[..p] == file && records[j..] == [];
      EndOfLog(crc, file, p);
    } else {
      var rest := RecordStart(crc, records, j);
      OneWhole(crc, file, p, records[j], rest);
      var next := |LogOf(crc, records[..j + 1])|;
      LogPrefix(crc, records, j + 1);
      assert file[next..] == file[p..][next - p..] == LogOf(crc, records)[p..][next - p..];
      LaterWhole(crc, records, file, j + 1);
      assert [records[j]] + records[j + 1..] == records[j..];
    }
  }

  /** Block boundaries are a block apart. */
  lemma NextBoundary(s: nat, b: nat)
    requires s < b && Off(b) == 0
    ensures s - Off(s) + BLOCK <= b
  {
    var x, y := s / BLOCK, b / BLOCK;
    assert b == y * BLOCK && s == x * BLOCK + Off(s);
    assert x < y;
    assert (x + 1) * BLOCK <= y * BLOCK;
  }

  /** Where a record goes on behind the boundary of a block. */
  lemma {:induction false} BoundarySplit(crc: Crc, log: Bytes, p: nat, data: Bytes, begin: bool, rest: Bytes, b: nat)
    returns (x: nat)
    requires p <= |log| && log[p..] == Fragments(crc, Off(p), data, begin) + rest && Off(b) == 0
    requires p + |Padding(Off(p))| < b < p + |Fragments(crc, Off(p), data, begin)|
    ensures x <= |data| && b <= |log| && log[b..] == Fragments(crc, 0, data[x..], false) + rest
    ensures b + |Fragments(crc, 0, data[x..], false)| == p + |Fragments(crc, Off(p), data, begin)|
    decreases |data|, if Take(Off(p), |data|) == 0 then 1 else 0
  {
    hide Fragments, Padding, Off, Take;
    var m := Take(Off(p), |data|);
    var start := p + |Padding(Off(p))|;
    var e := start + HEADER + m;
    StartFits(p, |data|);
    NextBoundary(start, b);
    x := 0;
    if m == |data| {
      LastLength(crc, Off(p), data, begin);
    } else {
      RestOfRecord(crc, log, p, data, begin, rest);
      if e == b {
        x := m;
      } else {
        NoPadding();
        NextTakes(|data| - m);
        var y := BoundarySplit(crc, log, e, data[m..], false, rest, b);
        x := m + y;
        assert data[m..][y..] == data[x..];
      }
    }
  }

  lemma NoPadding()
    ensures |Padding(0)| == 0
  {
  }

  /** The first record that begins at or behind a position. */
  lemma FirstBehind(crc: Crc, records: seq<Bytes>, k: nat, b: nat) returns (j: nat)
    requires k < |records| && Begin(crc, records, k) < b
    ensures k < j <= |records| && IsFirstBehind(crc, records, k, b, j)
  {
    hide Begin;
    j := k + 1;
    while j < |records| && Begin(crc, records, j) < b
      invariant k < j <= |records| && forall i :: k <= i < j ==> Begin(crc, records, i) < b
    {
      j := j + 1;
    }
  }

  ghost predicate IsFirstBehind(crc: Crc, records: seq<Bytes>, k: nat, b: nat, j: nat)
    requires j <= |records|
  {
    (forall i :: k <= i < j ==> Begin(crc, records, i) < b) && (j < |records| ==> Begin(crc, records, j) >= b)
  }

  /** What of a record lies behind a block boundary: nothing, or the fragments of a rest of it. */
  ghost predicate IsTail(crc: Crc, record: Bytes, behind: Bytes, tail: Option<Bytes>) {
    if tail.None? then behind == []
    else behind == Fragments(crc, 0, tail.value, false) && exists x :: 0 <= x <= |record| && tail.value == record[x..]
  }

  /** A fragment ends with its record at the latest. */
  lemma {:induction false} FragmentEnds(crc: Crc, log: Bytes, p: nat, data: Bytes, begin: bool, rest: Bytes, q: nat,
                                        t: byte, piece: Bytes)
    requires p <= |log| && log[p..] == Fragments(crc, Off(p), data, begin) + rest
    requires FragmentIn(p, data, begin, q, t, piece)
    ensures q + HEADER + |piece| <= p + |Fragments(crc, Off(p), data, begin)|
    decreases |data|, if Take(Off(p), |data|) == 0 then 1 else 0
  {
    hide Fragments, Padding, Off, Take, TypeOf, FragmentIn;
    var m := Take(Off(p), |data|);
    var start := p + |Padding(Off(p))|;
    FragmentSplit(p, data, begin, q, t, piece);
    if m == |data| {
      LastLength(crc, Off(p), data, begin);
    } else {
      RestOfRecord(crc, log, p, data, begin, rest);
      NextTakes(|data| - m);
      if !(q == start && piece == data[..m]) {
        FragmentEnds(crc, log, start + HEADER + m, data[m..], false, rest, q, t, piece);
      }
    }
  }

  /** Reading on at the boundary `b`, where record `j - 1` may still go on. */
  lemma InsideRecord(crc: Crc, records: seq<Bytes>, file: Bytes, b: nat, j: nat) returns (tail: Bytes)
    requires 0 < j <= |records| && b <= |LogOf(crc, records)| == |file| && Off(b) == 0
    requires file[b..] == LogOf(crc, records)[b..]
    requires Begin(crc, records, j - 1) < b < |LogOf(crc, records[..j])|
    ensures |LogOf(crc, records[..j])| <= |LogOf(crc, records)|
    ensures IsTail(crc, records[j - 1], LogOf(crc, records)[b..|LogOf(crc, records[..j])|], Some(tail))
    ensures AllFrom(crc, file, b) == (records[j..], Count(0, |tail|))
  {
    hide AllFrom, LogOf, Fragments, Off, RecordAt, Padding, Count;
    var log, p, next := LogOf(crc, records), |LogOf(crc, records[..j - 1])|, |LogOf(crc, records[..j])|;
    var data := records[j - 1];
    var rest := RecordStart(crc, records, j - 1);
    var x := BoundarySplit(crc, log, p, data, true, rest, b);
    tail := data[x..];
    LogPrefix(crc, records, j);
    assert log[b..next] == Fragments(crc, 0, tail, false) by {
      assert log[b..next] == log[b..][..next - b];
    }
    TailSkipped(crc, file, b, tail, rest);
    assert file[next..] == file[b..][next - b..] == log[b..][next - b..] == log[next..];
    LaterWhole(crc, records, file, j);
    AlikeAll(crc, file, b, next);
  }

  /** Reading on at the boundary `b` between records. */
  lemma BetweenRecords(crc: Crc, records: seq<Bytes>, file: Bytes, b: nat, j: nat)
    requires j <= |records| && b <= |LogOf(crc, records)| == |file| && (Off(b) == 0 || b == |file|)
    requires |LogOf(crc, records[..j])| <= b && (j < |records| ==> b <= Begin(crc, records, j))
    requires file[|LogOf(crc, records[..j])|..] == LogOf(crc, records)[|LogOf(crc, records[..j])|..]
    ensures AllFrom(crc, file, b) == (records[j..], 0)
  {
    hide AllFrom, LogOf, Fragments, Off, RecordAt, PhysicalAt;
    var p := |LogOf(crc, records[..j])|;
    LaterWhole(crc, records, file, j);
    assert j == |records| ==> records[..j] == records;
    if p < b {
      BeginsInside(crc, records, j);
      PaddingTo(p, b);
      SkipPadding(crc, file, p);
      SameStep(crc, file, p, b, [], false);
      AlikeAll(crc, file, p, b);
    }
  }

  /** Padding leads to the next boundary. */
  lemma PaddingTo(p: nat, b: nat)
    requires p < b <= p + |Padding(Off(p))|
    requires Off(b) == 0
    ensures b == p + |Padding(Off(p))|
  {
    NextBoundary(p, b);
  }

  lemma BeginsInside(crc: Crc, records: seq<Bytes>, j: nat)
    requires j < |records|
    ensures Begin(crc, records, j) < |LogOf(crc, records)|
  {
    hide LogOf, Fragments, Off, Padding, Physical, More, TypeOf, Take;
    var rest := RecordStart(crc, records, j);
    var log, q := LogOf(crc, records), Begin(crc, records, j);
    PieceAt(crc, log, |LogOf(crc, records[..j])|, records[j], true, rest);
    assert |log[q..]| >= HEADER;
  }

  /** What is behind the altered fragment is as it was written. */
  lemma SameBehind(log: Bytes, file: Bytes, q: nat, n: nat, from: nat)
    requires Altered(log, file, q, n) && q + HEADER + n <= from <= |log|
    ensures |file| == |log| && file[from..] == log[from..]
  {
  }

  lemma BeyondIsBoundary(file: Bytes, q: nat)
    requires q <= |file|
    ensures Off(Beyond(file, q)) == 0 || Beyond(file, q) == |file|
  {
  }

  /** Where the fragment with the damage lies among the records. */
  lemma FragmentPlace(crc: Crc, records: seq<Bytes>, k: nat, q: nat, t: byte, piece: Bytes)
    requires k < |records| && FragmentIn(|LogOf(crc, records[..k])|, records[k], true, q, t, piece)
    ensures Begin(crc, records, k) <= q && q + HEADER + |piece| <= |LogOf(crc, records[..k + 1])|
    ensures Off(q) + HEADER + |piece| <= BLOCK
  {
    hide LogOf, Fragments, Off, Padding, FragmentIn;
    var p := |LogOf(crc, records[..k])|;
    var rest := RecordStart(crc, records, k);
    FragmentBehind(p, records[k], true, q, t, piece);
    FragmentEnds(crc, LogOf(crc, records), p, records[k], true, rest, q, t, piece);
  }

  /** Reading on behind the block: the records that begin there are delivered, and what is left of one is reported. */
  lemma ReadingOn(crc: Crc, records: seq<Bytes>, k: nat, file: Bytes, q: nat, n: nat, b: nat)
    returns (j: nat, tail: Option<Bytes>)
    requires k < |records| && Begin(crc, records, k) < b && Altered(LogOf(crc, records), file, q, n)
    requires q + HEADER + n <= b <= |file| && q + HEADER + n <= |LogOf(crc, records[..k + 1])|
    requires Off(b) == 0 || b == |file|
    ensures k < j <= |records| && IsFirstBehind(crc, records, k, b, j)
    ensures var log, next := LogOf(crc, records), |LogOf(crc, records[..j])|;
            && next <= |log| == |file|
            && IsTail(crc, records[j - 1], if b < next then log[b..next] else [], tail)
            && AllFrom(crc, file, b) == (records[j..], if tail.Some? then Count(0, |tail.value|) else 0)
  {
    hide LogOf, Fragments, AllFrom, Begin, Off, Count, Altered;
    var log := LogOf(crc, records);
    AlteredSize(log, file, q, n);
    j := FirstBehind(crc, records, k, b);
    var next := |LogOf(crc, records[..j])|;
    LogPrefix(crc, records, j);
    WholeRecords(crc, records, k + 1, j);
    if b < next {
      SameBehind(log, file, q, n, b);
      var rest := InsideRecord(crc, records, file, b, j);
      tail := Some(rest);
    } else {
      tail := None;
      SameBehind(log, file, q, n, next);
      BetweenRecords(crc, records, file, b, j);
    }
  }

  lemma DamageAlters(crc: Crc, log: Bytes, file: Bytes, q: nat, n: nat)
    requires Damaged(crc, log, file, q, n)
    ensures Altered(log, file, q, n) && |file| == |log|
  {
  }

  /**
   A written log in which one fragment was altered so that it shows. Of its records exactly those are
   lost that have the fragment or begin behind it in its block; all before and all after them are
   delivered. Reported are: the damage, unless the header became zero; the record's earlier fragments,
   if there are any; and each fragment behind the block that is left of a lost record.
   */
  lemma DamageCosts(crc: Crc, records: seq<Bytes>, k: nat, file: Bytes, q: nat, t: byte, piece: Bytes)
    returns (j: nat, tail: Option<Bytes>)
    requires k < |records| && FragmentIn(|LogOf(crc, records[..k])|, records[k], true, q, t, piece)
    requires Damaged(crc, LogOf(crc, records), file, q, |piece|)
    ensures k < j <= |records| && IsFirstBehind(crc, records, k, Beyond(file, q), j)
    ensures var log, b, next := LogOf(crc, records), Beyond(file, q), |LogOf(crc, records[..j])|;
            next <= |log| && IsTail(crc, records[j - 1], if b < next then log[b..next] else [], tail)
    ensures AllFrom(crc, file, 0)
         == (records[..k] + records[j..],
             (if Zeroed(file, q) then 0 else 1) + (if IsStart(t) then 0 else 1)
             + if tail.Some? then Count(0, |tail.value|) else 0)
  {
    hide LogOf, Fragments, FragmentIn, AllFrom, IsStart, Zeroed, Damaged, Altered, Begin, Beyond, Off, Count, IsTail;
    hide IsFirstBehind;
    var log := LogOf(crc, records);
    DamageAlters(crc, log, file, q, |piece|);
    DamageReported(crc, records, k, file, q, t, piece);
    FragmentPlace(crc, records, k, q, t, piece);
    HeaderInside(log, file, q, |piece|);
    BeyondIsBoundary(file, q);
    j, tail := ReadingOn(crc, records, k, file, q, |piece|, Beyond(file, q));
  }
}
