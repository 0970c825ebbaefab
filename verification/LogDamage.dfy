/**
 What a log reader makes of damaged files. Whatever the bytes, a record that is delivered was put
 together from fragments that lie in the file just as a writer writes them, checksum and all; and
 a fragment of a written log whose payload or checksum was changed is reported, and costs its
 record and the rest of its block.
 */
module LogDamage {
  import opened Keys
  import opened Coding
  import opened Log

  // Delivered records are made of sound fragments

  /** A fragment that lies in a file: where, its type and its payload. */
  datatype Piece = Piece(at: nat, t: byte, data: Bytes)

  /** The file holds at this place exactly what a writer writes for the fragment. */
  ghost predicate Lies(crc: Crc, file: Bytes, p: Piece) {
    && |p.data| < 65536 && p.at + HEADER + |p.data| <= |file|
    && file[p.at..p.at + HEADER + |p.data|] == Physical(crc, p.t, p.data)
  }

  function End(p: Piece): nat {
    p.at + HEADER + |p.data|
  }

  /** The pieces lie in the file one after another, between two positions. */
  ghost predicate LieInOrder(crc: Crc, file: Bytes, from: nat, to: nat, ps: seq<Piece>) {
    && (forall i :: 0 <= i < |ps| ==> Lies(crc, file, ps[i]) && from <= ps[i].at && End(ps[i]) <= to)
    && forall i :: 0 <= i && i + 1 < |ps| ==> End(ps[i]) <= ps[i + 1].at
  }

  function Payload(ps: seq<Piece>): Bytes {
    if ps == [] then [] else Payload(ps[..|ps| - 1]) + ps[|ps| - 1].data
  }

  /** A record begun: a first fragment and any number of middle ones. */
  ghost predicate Begun(ps: seq<Piece>) {
    ps != [] && ps[0].t == FIRST && forall i :: 1 <= i < |ps| ==> ps[i].t == MIDDLE
  }

  /** A record is one full fragment, or a first one, any number of middle ones and a last one. */
  ghost predicate IsRecord(ps: seq<Piece>) {
    (|ps| == 1 && ps[0].t == FULL) || (|ps| > 1 && Begun(ps[..|ps| - 1]) && ps[|ps| - 1].t == LAST)
  }

  /** Bytes with a good checksum are what the writer writes. */
  lemma GoodIsPhysical(crc: Crc, b: Bytes)
    requires |b| >= HEADER && HEADER + LengthField(b) <= |b|
    requires Unmask(DecodeFixed32(b)) == crc(b[6..HEADER + LengthField(b)])
    ensures var n := LengthField(b); n < 65536 && b[..HEADER + n] == Physical(crc, b[6], b[HEADER..HEADER + n])
  {
    hide Mask, Unmask, DecodeFixed32, Fixed32, LengthField;
    var n := LengthField(b);
    var data := b[HEADER..HEADER + n];
    Fixed32Of(b);
    MaskUnmask(DecodeFixed32(b));
    LengthDigits(b);
    Cut(b, n);
    assert Fixed32(Mask(crc([b[6]] + data))) == b[..4];
  }

  lemma LengthDigits(b: Bytes)
    requires |b| >= HEADER
    ensures LengthField(b) < 65536 && LengthField(b) % 256 == b[4] && LengthField(b) / 256 == b[5]
  {
  }

  /** The head of a buffer in its parts. */
  lemma Cut(b: Bytes, n: nat)
    requires HEADER + n <= |b|
    ensures b[6..HEADER + n] == [b[6]] + b[HEADER..HEADER + n]
    ensures b[..HEADER + n] == b[..4] + [b[4], b[5], b[6]] + b[HEADER..HEADER + n]
  {
  }

  /** A fragment that the reader hands over lies in the file. */
  lemma {:induction false} FoundLies(crc: Crc, file: Bytes, pos: nat)
    requires pos <= |file|
    ensures var f := PhysicalAt(crc, file, pos);
            f.kind != EOF && f.kind != BAD ==>
              && 0 <= f.kind < 256 && f.next >= HEADER + |f.data|
              && pos <= f.next - HEADER - |f.data|
              && Lies(crc, file, Piece(f.next - HEADER - |f.data|, f.kind, f.data))
    decreases |file| - pos
  {
    hide Physical, Unmask, DecodeFixed32, BlockEnd, LengthField, Rest;
    var buffer := Rest(file, pos);
    var f := PhysicalAt(crc, file, pos);
    RestIs(file, pos);
    if |buffer| < HEADER {
      if BlockEnd(pos) <= |file| {
        FoundLies(crc, file, BlockEnd(pos));
      }
    } else if f.kind != EOF && f.kind != BAD {
      GoodIsPhysical(crc, buffer);
    }
  }

  lemma RestIs(file: Bytes, pos: nat)
    requires pos <= |file|
    ensures var r := Rest(file, pos);
            pos + |r| <= |file| && forall k :: 0 <= k <= |r| ==> file[pos..pos + k] == r[..k]
  {
    hide BlockEnd;
    var r := Rest(file, pos);
    forall k | 0 <= k <= |r|
      ensures file[pos..pos + k] == r[..k]
    {
    }
  }

  lemma PayloadSnoc(ps: seq<Piece>, p: Piece)
    ensures Payload(ps + [p]) == Payload(ps) + p.data
  {
    assert (ps + [p])[..|ps|] == ps;
  }

  lemma InOrderSnoc(crc: Crc, file: Bytes, from: nat, to: nat, ps: seq<Piece>, p: Piece, to': nat)
    requires LieInOrder(crc, file, from, to, ps) && Lies(crc, file, p) && from <= to <= p.at && End(p) <= to'
    ensures LieInOrder(crc, file, from, to', ps + [p])
  {
    hide Lies;
    var all := ps + [p];
    assert forall i :: 0 <= i < |ps| ==> all[i] == ps[i];
  }

  lemma OnePiece(crc: Crc, file: Bytes, from: nat, p: Piece)
    requires Lies(crc, file, p) && from <= p.at
    ensures LieInOrder(crc, file, from, End(p), [p]) && Payload([p]) == p.data
  {
    hide Lies;
    assert [p][..0] == [];
  }

  lemma EmptyPayload()
    ensures Payload([]) == []
  {
  }

  lemma NoPieces(crc: Crc, file: Bytes, from: nat, to: nat)
    ensures LieInOrder(crc, file, from, to, [])
  {
  }

  /** The same record from the same place, or none. */
  predicate Alike(g: Got, h: Got) {
    g.ok == h.ok && g.record == h.record && g.next == h.next
  }

  /** One turn of assembling a record. */
  lemma Turn(crc: Crc, file: Bytes, pos: nat, scratch: Bytes, fragmented: bool)
    requires pos <= |file| && (!fragmented ==> scratch == [])
    ensures var f, g := PhysicalAt(crc, file, pos), RecordAt(crc, file, pos, scratch, fragmented);
            if f.kind == EOF then !g.ok
            else if f.kind == FULL then Alike(g, Got(true, f.data, f.next, 0))
            else if f.kind == FIRST then Alike(g, RecordAt(crc, file, f.next, f.data, true))
            else if f.kind == MIDDLE && fragmented then Alike(g, RecordAt(crc, file, f.next, scratch + f.data, true))
            else if f.kind == LAST && fragmented then Alike(g, Got(true, scratch + f.data, f.next, 0))
            else Alike(g, RecordAt(crc, file, f.next, [], false))
  {
    hide PhysicalAt;
  }

  /** What reading one record from `pos` delivers, given the pieces of a record begun before. */
  lemma {:induction false} RecordMade(crc: Crc, file: Bytes, from: nat, pos: nat, ps: seq<Piece>, fragmented: bool)
    returns (all: seq<Piece>)
    requires from <= pos <= |file| && LieInOrder(crc, file, from, pos, ps)
    requires if fragmented then Begun(ps) else ps == []
    ensures var g := RecordAt(crc, file, pos, Payload(ps), fragmented);
            g.ok ==> IsRecord(all) && LieInOrder(crc, file, from, g.next, all) && g.record == Payload(all)
    decreases |file| - pos, 0
  {
    hide PhysicalAt, RecordAt, Lies, LieInOrder, Payload, IsRecord, Begun;
    var f := PhysicalAt(crc, file, pos);
    FoundLies(crc, file, pos);
    EmptyPayload();
    Turn(crc, file, pos, Payload(ps), fragmented);
    all := [];
    if f.kind == EOF {
      return;
    }
    if f.kind == FULL || f.kind == FIRST || (fragmented && (f.kind == MIDDLE || f.kind == LAST)) {
      var p := Piece(f.next - HEADER - |f.data|, f.kind, f.data);
      OnePiece(crc, file, from, p);
      InOrderSnoc(crc, file, from, pos, ps, p, f.next);
      PayloadSnoc(ps, p);
      PieceKinds(ps, p, fragmented);
      if f.kind == FULL {
        all := [p];
      } else if f.kind == FIRST {
        all := RecordMade(crc, file, from, f.next, [p], true);
      } else if f.kind == MIDDLE {
        all := RecordMade(crc, file, from, f.next, ps + [p], true);
      } else {
        all := ps + [p];
      }
    } else {
      all := Restart(crc, file, from, f.next);
    }
  }

  /** What a piece makes of the pieces before it. */
  lemma PieceKinds(ps: seq<Piece>, p: Piece, fragmented: bool)
    requires fragmented ==> Begun(ps)
    ensures p.t == FULL ==> IsRecord([p])
    ensures p.t == FIRST ==> Begun([p])
    ensures fragmented && p.t == MIDDLE ==> Begun(ps + [p])
    ensures fragmented && p.t == LAST ==> IsRecord(ps + [p])
  {
    assert (ps + [p])[..|ps|] == ps;
  }

  lemma {:induction false} Restart(crc: Crc, file: Bytes, from: nat, pos: nat) returns (all: seq<Piece>)
    requires from <= pos <= |file|
    ensures var g := RecordAt(crc, file, pos, [], false);
            g.ok ==> IsRecord(all) && LieInOrder(crc, file, from, g.next, all) && g.record == Payload(all)
    decreases |file| - pos, 1
  {
    EmptyPayload();
    NoPieces(crc, file, from, pos);
    all := RecordMade(crc, file, from, pos, [], false);
  }

  /** Each record comes from fragments behind those of the record before. */
  ghost predicate MadeFrom(crc: Crc, file: Bytes, pos: nat, records: seq<Bytes>)
    decreases |records|
  {
    records == [] || exists ps, next ::
      && IsRecord(ps) && LieInOrder(crc, file, pos, next, ps) && records[0] == Payload(ps)
      && MadeFrom(crc, file, next, records[1..])
  }

  /**
   Of any file, damaged or not, a reader delivers only records whose fragments lie in the file as a
   writer writes them, in order and each in one record.
   */
  lemma {:induction false} DeliveredIsWritten(crc: Crc, file: Bytes, pos: nat)
    requires pos <= |file|
    ensures MadeFrom(crc, file, pos, AllFrom(crc, file, pos).0)
    decreases |file| - pos
  {
    var g := RecordAt(crc, file, pos, [], false);
    var all := Restart(crc, file, pos, pos);
    hide RecordAt, IsRecord, LieInOrder, Payload;
    if g.ok {
      DeliveredIsWritten(crc, file, g.next);
      var more := AllFrom(crc, file, g.next).0;
      assert ([g.record] + more)[1..] == more;
    }
  }

  // A fragment of a written log is damaged

  /** After the first fragment of a record that does not end with it comes the next block. */
  lemma NextFragment(p: nat, left: nat)
    requires Take(Off(p), left) < left
    ensures var r := p + |Padding(Off(p))| + HEADER + Take(Off(p), left); Off(r) == 0 && r > p
    ensures forall more: nat :: more > 0 ==> Take(0, more) > 0
  {
    FragmentStart(p);
    FillsBlock(p + |Padding(Off(p))|, HEADER + Take(Off(p), left));
  }

  /** The record `data` that is written at `p` has at `q` a fragment of this type and payload. */
  ghost predicate FragmentIn(p: nat, data: Bytes, begin: bool, q: nat, t: byte, piece: Bytes)
    decreases |data|, if Take(Off(p), |data|) == 0 then 1 else 0
  {
    var m := Take(Off(p), |data|);
    var start := p + |Padding(Off(p))|;
    || (q == start && t == TypeOf(begin, m == |data|) && piece == data[..m])
    || (m < |data| && (NextFragment(p, |data|); FragmentIn(start + HEADER + m, data[m..], false, q, t, piece)))
  }

  lemma {:induction false} FragmentBehind(p: nat, data: Bytes, begin: bool, q: nat, t: byte, piece: Bytes)
    requires FragmentIn(p, data, begin, q, t, piece)
    ensures q >= p + |Padding(Off(p))| && |piece| <= |data| && Off(q) + HEADER + |piece| <= BLOCK && t != 0
    decreases |data|, if Take(Off(p), |data|) == 0 then 1 else 0
  {
    hide Off, Take, Padding, TypeOf, FragmentIn;
    var m := Take(Off(p), |data|);
    var start := p + |Padding(Off(p))|;
    FragmentSplit(p, data, begin, q, t, piece);
    if q == start && t == TypeOf(begin, m == |data|) && piece == data[..m] {
      StartFits(p, |data|);
      TypeIsNonzero(begin, m == |data|);
    } else {
      NextFragment(p, |data|);
      FragmentBehind(start + HEADER + m, data[m..], false, q, t, piece);
    }
  }

  /** Where reading goes on after a block is dropped. */
  function Beyond(file: Bytes, q: nat): (next: nat)
    requires q <= |file|
    ensures q <= next <= |file|
  {
    if BlockEnd(q) <= |file| then BlockEnd(q) else |file|
  }

  /** The length in the header at `q` reaches beyond what there is of the block. */
  predicate Overruns(file: Bytes, q: nat)
    requires q + HEADER <= |file|
  {
    HEADER + LengthField(file[q..]) > Beyond(file, q) - q
  }

  /** The header has neither type nor length, as in a file whose room was claimed ahead of writing. */
  predicate Zeroed(file: Bytes, q: nat)
    requires q + HEADER <= |file|
  {
    file[q + 6] == 0 && LengthField(file[q..]) == 0
  }

  /** The checksum at `q` is not that of type and payload. */
  predicate BadSum(crc: Crc, file: Bytes, q: nat)
    requires q + HEADER <= |file| && !Overruns(file, q)
  {
    Unmask(DecodeFixed32(file[q..])) != crc(file[q + 6..q + HEADER + LengthField(file[q..])])
  }

  /** The file is the log but for the bytes of one fragment. */
  ghost predicate Altered(log: Bytes, file: Bytes, q: nat, n: nat) {
    && |file| == |log| && q + HEADER + n <= |log|
    && forall i :: 0 <= i < |log| && !(q <= i < q + HEADER + n) ==> file[i] == log[i]
  }

  /** It shows: length, type, payload and checksum no longer fit together, or lead out of the block. */
  ghost predicate Damaged(crc: Crc, log: Bytes, file: Bytes, q: nat, n: nat) {
    && Altered(log, file, q, n)
    && if Overruns(file, q) then BlockEnd(q) <= |file| else Zeroed(file, q) || BadSum(crc, file, q)
  }

  /** In the last block a length that leads out of the file is taken for a record cut short. */
  ghost predicate Truncated(log: Bytes, file: Bytes, q: nat, n: nat) {
    Altered(log, file, q, n) && Overruns(file, q) && BlockEnd(q) > |file|
  }

  lemma SameBytes(log: Bytes, file: Bytes, q: nat, n: nat, from: nat, to: nat)
    requires Altered(log, file, q, n) && from <= to <= |log| && (to <= q || q + HEADER + n <= from)
    ensures file[from..to] == log[from..to]
  {
  }

  lemma RestBytes(file: Bytes, q: nat)
    requires q <= |file|
    ensures Rest(file, q) == file[q..Beyond(file, q)]
  {
    hide BlockEnd;
  }

  lemma SameHeader(a: Bytes, b: Bytes)
    requires |a| >= HEADER && |b| >= HEADER && forall i :: 0 <= i < HEADER ==> a[i] == b[i]
    ensures DecodeFixed32(a) == DecodeFixed32(b) && LengthField(a) == LengthField(b)
  {
  }

  /** The damaged fragment costs the rest of its block, and is reported unless its header is all zeros. */
  lemma BadFragment(crc: Crc, log: Bytes, file: Bytes, q: nat, n: nat)
    requires Off(q) + HEADER + n <= BLOCK && Damaged(crc, log, file, q, n)
    ensures PhysicalAt(crc, file, q) == Found(BAD, [], Beyond(file, q), if Zeroed(file, q) then 0 else 1)
  {
    HeaderInside(log, file, q, n);
    RestBytes(file, q);
    hide Unmask, DecodeFixed32, BlockEnd, Off, LengthField, Rest, Beyond;
    var buffer := Rest(file, q);
    SameHeader(buffer, file[q..]);
    var m := LengthField(buffer);
    if HEADER + m <= |buffer| {
      SubSlice(file, q, Beyond(file, q), 6, HEADER + m);
    }
  }

  lemma SubSlice(file: Bytes, q: nat, e: nat, i: nat, j: nat)
    requires q <= e <= |file| && i <= j <= e - q
    ensures file[q..e][i..j] == file[q + i..q + j]
  {
    var a, b := file[q..e], file[q + i..q + j];
    forall k | 0 <= k < j - i
      ensures a[i..j][k] == b[k]
    {
      assert a[i..j][k] == a[i + k] == file[q + (i + k)];
    }
    assert a[i..j] == b;
  }

  lemma HeaderInside(log: Bytes, file: Bytes, q: nat, n: nat)
    requires Off(q) + HEADER + n <= BLOCK && Altered(log, file, q, n)
    ensures q + HEADER + n <= Beyond(file, q)
    ensures q + HEADER <= |file| && (Beyond(file, q) < |file| ==> BlockEnd(q) <= |file|)
  {
    BlockEndIs(q);
  }

  lemma CutFragment(crc: Crc, log: Bytes, file: Bytes, q: nat, n: nat)
    requires Off(q) + HEADER + n <= BLOCK && Truncated(log, file, q, n)
    ensures PhysicalAt(crc, file, q) == Found(EOF, [], |file|, 0)
  {
    HeaderInside(log, file, q, n);
    RestBytes(file, q);
    hide Unmask, DecodeFixed32, BlockEnd, Off, LengthField, Rest;
    SameHeader(Rest(file, q), file[q..]);
  }

  /** An undamaged first fragment is read as written. */
  lemma GoodFragment(crc: Crc, log: Bytes, file: Bytes, q: nat, n: nat, p: nat, data: Bytes, begin: bool, rest: Bytes)
    requires p <= |log| && log[p..] == Fragments(crc, Off(p), data, begin) + rest && Altered(log, file, q, n)
    requires p + |Padding(Off(p))| + HEADER + Take(Off(p), |data|) <= q
    ensures var m := Take(Off(p), |data|);
            var r := p + |Padding(Off(p))| + HEADER + m;
            r <= |file| && PhysicalAt(crc, file, p) == Found(TypeOf(begin, m == |data|), data[..m], r, 0)
  {
    hide Physical, PhysicalAt, Fragments, More, Off, Take, Padding, Altered;
    var m := Take(Off(p), |data|);
    var t := TypeOf(begin, m == |data|);
    var start := p + |Padding(Off(p))|;
    AlteredSize(log, file, q, n);
    PieceAt(crc, log, p, data, begin, rest);
    FragmentStart(p);
    StartFits(p, |data|);
    SkipPadding(crc, file, p);
    TypeIsNonzero(begin, m == |data|);
    hide TypeOf;
    var end := start + HEADER + m;
    SameBytes(log, file, q, n, start, end);
    Begins(log, start, Physical(crc, t, data[..m]), More(crc, Off(p), data) + rest);
    Continues(file, start, Physical(crc, t, data[..m]));
    assert file[..|file|] == file;
    FragmentAt(crc, file, |file|, start, t, data[..m], file[end..]);
  }

  lemma AlteredSize(log: Bytes, file: Bytes, q: nat, n: nat)
    requires Altered(log, file, q, n)
    ensures |file| == |log| && q + HEADER + n <= |file|
  {
  }

  lemma StartFits(p: nat, left: nat)
    ensures Off(p + |Padding(Off(p))|) + HEADER + Take(Off(p), left) <= BLOCK
  {
    FragmentStart(p);
  }

  lemma Begins(log: Bytes, at: nat, a: Bytes, b: Bytes)
    requires at <= |log| && log[at..] == a + b
    ensures at + |a| <= |log| && log[at..at + |a|] == a
  {
    assert log[at..][..|a|] == log[at..at + |a|];
  }

  lemma Continues(file: Bytes, at: nat, a: Bytes)
    requires at + |a| <= |file| && file[at..at + |a|] == a
    ensures file[at..] == a + file[at + |a|..]
  {
  }

  /** Padding is skipped when a fragment follows it. */
  lemma SkipPadding(crc: Crc, file: Bytes, p: nat)
    requires p + |Padding(Off(p))| <= |file|
    ensures PhysicalAt(crc, file, p) == PhysicalAt(crc, file, p + |Padding(Off(p))|)
  {
    hide PhysicalAt;
    if BLOCK - Off(p) < HEADER {
      PaddingAt(crc, file, p);
    }
  }

  /** Reading a record with a damaged fragment comes, without a report, to where that fragment begins. */
  lemma {:induction false} ReachesFragment(crc: Crc, log: Bytes, file: Bytes, p: nat, data: Bytes, begin: bool,
                                           scratch: Bytes, rest: Bytes, q: nat, t: byte, piece: Bytes)
    returns (before: Bytes)
    requires p <= |log| && log[p..] == Fragments(crc, Off(p), data, begin) + rest && (begin ==> scratch == [])
    requires FragmentIn(p, data, begin, q, t, piece) && Altered(log, file, q, |piece|)
    ensures p <= q <= |file| && (IsStart(t) ==> before == [])
    ensures RecordAt(crc, file, p, scratch, !begin) == RecordAt(crc, file, q, before, !IsStart(t))
    decreases |data|, if Take(Off(p), |data|) == 0 then 1 else 0
  {
    hide PhysicalAt, RecordAt, Fragments, Padding, Physical, Off, Take, Altered, FragmentIn, TypeOf, More;
    var m := Take(Off(p), |data|);
    var start := p + |Padding(Off(p))|;
    FragmentBehind(p, data, begin, q, t, piece);
    AlteredSize(log, file, q, |piece|);
    FragmentSplit(p, data, begin, q, t, piece);
    if q == start && t == TypeOf(begin, m == |data|) && piece == data[..m] {
      SkipPadding(crc, file, p);
      SameStep(crc, file, p, q, scratch, !begin);
      StartType(begin, m == |data|);
      before := scratch;
    } else {
      var r := start + HEADER + m;
      NextFragment(p, |data|);
      FragmentBehind(r, data[m..], false, q, t, piece);
      GoodFragment(crc, log, file, q, |piece|, p, data, begin, rest);
      RecordStep(crc, file, p, scratch, begin, false);
      RestOfRecord(crc, log, p, data, begin, rest);
      before := ReachesFragment(crc, log, file, r, data[m..], false, scratch + data[..m], rest, q, t, piece);
    }
  }

  /** A record begins with a fragment of one of these types. */
  predicate IsStart(t: byte) {
    t == FULL || t == FIRST
  }

  lemma StartType(begin: bool, end: bool)
    ensures IsStart(TypeOf(begin, end)) <==> begin
  {
  }

  lemma SameStep(crc: Crc, file: Bytes, p: nat, q: nat, scratch: Bytes, fragmented: bool)
    requires p <= |file| && q <= |file| && PhysicalAt(crc, file, p) == PhysicalAt(crc, file, q)
    ensures RecordAt(crc, file, p, scratch, fragmented) == RecordAt(crc, file, q, scratch, fragmented)
  {
    hide PhysicalAt;
  }

  lemma FragmentSplit(p: nat, data: Bytes, begin: bool, q: nat, t: byte, piece: Bytes)
    requires FragmentIn(p, data, begin, q, t, piece)
    ensures var m := Take(Off(p), |data|);
            var start := p + |Padding(Off(p))|;
            || (q == start && t == TypeOf(begin, m == |data|) && piece == data[..m])
            || (m < |data| && FragmentIn(start + HEADER + m, data[m..], false, q, t, piece))
  {
    hide Off, Take, Padding, TypeOf;
  }

  lemma BadStep(crc: Crc, file: Bytes, p: nat, scratch: Bytes, fragmented: bool)
    requires p <= |file| && (!fragmented ==> scratch == []) && PhysicalAt(crc, file, p).kind == BAD
    ensures var f := PhysicalAt(crc, file, p);
            var g, h := RecordAt(crc, file, p, scratch, fragmented), RecordAt(crc, file, f.next, [], false);
            Alike(g, h) && g.reports == h.reports + f.reports + if fragmented then 1 else 0
  {
    hide PhysicalAt;
  }

  /** Whole records at the head of a file are delivered, whatever follows them. */
  lemma {:induction false} WholeFirst(crc: Crc, records: seq<Bytes>, file: Bytes, k: nat)
    requires k <= |records| && LogOf(crc, records[..k]) <= file
    ensures var p := |LogOf(crc, records[..k])|;
            && AllFrom(crc, file, 0).0 == records[..k] + AllFrom(crc, file, p).0
            && AllFrom(crc, file, 0).1 == AllFrom(crc, file, p).1
    decreases k
  {
    hide AllFrom, LogOf, Fragments;
    if k == 0 {
      EmptyLog(crc);
      assert records[..0] == [];
      assert [] + AllFrom(crc, file, 0).0 == AllFrom(crc, file, 0).0;
    } else {
      var before, log := LogOf(crc, records[..k - 1]), LogOf(crc, records[..k]);
      assert records[..k - 1] + [records[k - 1]] == records[..k];
      AppendExtends(crc, records[..k - 1], records[k - 1]);
      WholeFirst(crc, records, file, k - 1);
      var rest := Behind(before, Fragments(crc, Off(|before|), records[k - 1], true), file);
      OneWhole(crc, file, |before|, records[k - 1], rest);
      assert records[..k - 1] + ([records[k - 1]] + AllFrom(crc, file, |log|).0)
          == records[..k] + AllFrom(crc, file, |log|).0;
    }
  }

  lemma OneWhole(crc: Crc, file: Bytes, p: nat, record: Bytes, rest: Bytes)
    requires p <= |file| && file[p..] == Fragments(crc, Off(p), record, true) + rest
    ensures var next := p + |Fragments(crc, Off(p), record, true)|;
            && next <= |file| && AllFrom(crc, file, p).0 == [record] + AllFrom(crc, file, next).0
            && AllFrom(crc, file, p).1 == AllFrom(crc, file, next).1
  {
    hide *;
    ReadBack(crc, file, |file|, p, record, true, [], rest);
    assert file[..|file|] == file;
    WholeDelivered(crc, file, p, record);
    NextRecord(crc, file, p);
  }

  lemma WholeDelivered(crc: Crc, file: Bytes, p: nat, record: Bytes)
    requires p <= |file| && Delivers(crc, file, p, record, true, [])
    ensures var next := p + |Fragments(crc, Off(p), record, true)|;
            next <= |file| ==> RecordAt(crc, file, p, [], false) == Got(true, record, next, 0)
  {
    hide RecordAt, Fragments, Off;
    assert [] + record == record;
  }

  lemma Behind(before: Bytes, here: Bytes, file: Bytes) returns (rest: Bytes)
    requires before + here <= file
    ensures |before| + |here| <= |file| && file[|before|..] == here + rest
  {
    rest := file[|before + here|..];
    assert file == before + here + rest;
  }

  lemma NextRecord(crc: Crc, file: Bytes, p: nat)
    requires p <= |file|
    ensures var g := RecordAt(crc, file, p, [], false);
            g.ok ==> && AllFrom(crc, file, p).0 == [g.record] + AllFrom(crc, file, g.next).0
                     && AllFrom(crc, file, p).1 == g.reports + AllFrom(crc, file, g.next).1
  {
    hide RecordAt;
  }

  /** A fragment of record `k` of a written log was altered: the records before it are delivered. */
  lemma UpToFragment(crc: Crc, records: seq<Bytes>, k: nat, file: Bytes, q: nat, t: byte, piece: Bytes)
    returns (before: Bytes)
    requires k < |records| && FragmentIn(|LogOf(crc, records[..k])|, records[k], true, q, t, piece)
    requires Altered(LogOf(crc, records), file, q, |piece|)
    ensures var p := |LogOf(crc, records[..k])|;
            && p <= q <= |file| && (IsStart(t) ==> before == []) && Off(q) + HEADER + |piece| <= BLOCK
            && AllFrom(crc, file, 0).0 == records[..k] + AllFrom(crc, file, p).0
            && AllFrom(crc, file, 0).1 == AllFrom(crc, file, p).1
            && RecordAt(crc, file, p, [], false) == RecordAt(crc, file, q, before, !IsStart(t))
  {
    var log, p := LogOf(crc, records), |LogOf(crc, records[..k])|;
    hide LogOf, RecordAt, Fragments, Altered, FragmentIn, AllFrom, Off, IsStart;
    FragmentBehind(p, records[k], true, q, t, piece);
    AlteredSize(log, file, q, |piece|);
    LogPrefix(crc, records, k);
    SameBytes(log, file, q, |piece|, 0, p);
    assert LogOf(crc, records[..k]) == log[0..p] == file[0..p];
    WholeFirst(crc, records, file, k);
    var rest := RecordStart(crc, records, k);
    before := ReachesFragment(crc, log, file, p, records[k], true, [], rest, q, t, piece);
  }

  /** Reading all from two places that lead to the same record. */
  lemma AlikeAll(crc: Crc, file: Bytes, p: nat, next: nat)
    requires p <= |file| && next <= |file|
    requires Alike(RecordAt(crc, file, p, [], false), RecordAt(crc, file, next, [], false))
    ensures AllFrom(crc, file, p).0 == AllFrom(crc, file, next).0
    ensures AllFrom(crc, file, p).1 + RecordAt(crc, file, next, [], false).reports
         == AllFrom(crc, file, next).1 + RecordAt(crc, file, p, [], false).reports
  {
    hide RecordAt;
  }

  /**
   A written log in which the bytes of one fragment were altered so that it shows: the records before
   the one with the fragment are delivered, and reading goes on behind the fragment's block. Two
   things are reported: the damage, unless the header became zero, and the record's earlier fragments,
   if there are any.
   */
  lemma DamageReported(crc: Crc, records: seq<Bytes>, k: nat, file: Bytes, q: nat, t: byte, piece: Bytes)
    requires k < |records| && FragmentIn(|LogOf(crc, records[..k])|, records[k], true, q, t, piece)
    requires Damaged(crc, LogOf(crc, records), file, q, |piece|)
    ensures var (all, reports) := AllFrom(crc, file, 0);
            var (later, more) := AllFrom(crc, file, Beyond(file, q));
            && all == records[..k] + later
            && reports == more + (if Zeroed(file, q) then 0 else 1) + if IsStart(t) then 0 else 1
  {
    var log, p := LogOf(crc, records), |LogOf(crc, records[..k])|;
    hide LogOf, RecordAt, Fragments, FragmentIn, AllFrom, IsStart, Zeroed, Overruns, BadSum, PhysicalAt;
    var before := UpToFragment(crc, records, k, file, q, t, piece);
    BadFragment(crc, log, file, q, |piece|);
    BadStep(crc, file, q, before, !IsStart(t));
    AlikeAll(crc, file, p, Beyond(file, q));
  }

  /** If it seems to lead out of the file, reading ends there as if the file had been cut off, without a report. */
  lemma DamageEndsLog(crc: Crc, records: seq<Bytes>, k: nat, file: Bytes, q: nat, t: byte, piece: Bytes)
    requires k < |records| && FragmentIn(|LogOf(crc, records[..k])|, records[k], true, q, t, piece)
    requires Truncated(LogOf(crc, records), file, q, |piece|)
    ensures AllFrom(crc, file, 0) == (records[..k], 0)
  {
    var log, p := LogOf(crc, records), |LogOf(crc, records[..k])|;
    hide LogOf, RecordAt, Fragments, FragmentIn, AllFrom, IsStart, Overruns, PhysicalAt;
    var before := UpToFragment(crc, records, k, file, q, t, piece);
    CutFragment(crc, log, file, q, |piece|);
    EndStep(crc, file, q, before, !IsStart(t));
    NoneFrom(crc, file, p);
    assert records[..k] + [] == records[..k];
  }

  lemma EndStep(crc: Crc, file: Bytes, p: nat, scratch: Bytes, fragmented: bool)
    requires p <= |file| && PhysicalAt(crc, file, p) == Found(EOF, [], |file|, 0)
    ensures RecordAt(crc, file, p, scratch, fragmented) == Got(false, [], |file|, 0)
  {
    hide PhysicalAt;
  }

  lemma NoneFrom(crc: Crc, file: Bytes, p: nat)
    requires p <= |file| && !RecordAt(crc, file, p, [], false).ok
    ensures AllFrom(crc, file, p) == ([], RecordAt(crc, file, p, [], false).reports)
  {
    hide RecordAt;
  }
}
