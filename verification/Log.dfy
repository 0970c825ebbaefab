/**
 The write-ahead log: records cut into checksummed fragments that never cross a block border,
 and the reader that puts them together again after a crash.
 The checksum is an arbitrary function of the record type and payload.
 */
module Log {
  import opened Keys
  import opened Coding

  const BLOCK: nat := 32768
  const HEADER: nat := 7

  const FULL: byte := 1
  const FIRST: byte := 2
  const MIDDLE: byte := 3
  const LAST: byte := 4
  const EOF: int := 5
  const BAD: int := 6

  type Crc = Bytes -> u32

  /** Rotates right by 15 bits and adds a constant, in 32 bits. */
  function Mask(crc: u32): u32
  {
    (crc / 0x8000 + (crc % 0x8000) * 0x2_0000 + 0xa282_ead8) % 0x1_0000_0000
  }

  function Unmask(masked: u32): u32
  {
    var rot := (masked + 0x1_0000_0000 - 0xa282_ead8) % 0x1_0000_0000;
    rot / 0x2_0000 + (rot % 0x2_0000) * 0x8000
  }

  lemma UnmaskMask(crc: u32)
    ensures Unmask(Mask(crc)) == crc
  {
    var rot := crc / 0x8000 + (crc % 0x8000) * 0x2_0000;
    assert (Mask(crc) + 0x1_0000_0000 - 0xa282_ead8) % 0x1_0000_0000 == rot;
    assert rot / 0x2_0000 == crc % 0x8000 && rot % 0x2_0000 == crc / 0x8000;
  }

  lemma MaskUnmask(w: u32)
    ensures Mask(Unmask(w)) == w
  {
    var rot := (w + 0x1_0000_0000 - 0xa282_ead8) % 0x1_0000_0000;
    var c := rot / 0x2_0000 + (rot % 0x2_0000) * 0x8000;
    assert c / 0x8000 == rot % 0x2_0000 && c % 0x8000 == rot / 0x2_0000;
    assert c / 0x8000 + (c % 0x8000) * 0x2_0000 == rot % 0x2_0000 + rot / 0x2_0000 * 0x2_0000 == rot;
  }

  /** A fragment on disk: masked checksum, length, type, payload. */
  function Physical(crc: Crc, t: byte, data: Bytes): (b: Bytes)
    requires |data| < 65536
    ensures |b| == HEADER + |data|
  {
    Fixed32(Mask(crc([t] + data))) + [|data| % 256, |data| / 256, t] + data
  }

  function Zeros(n: nat): (z: Bytes)
    ensures |z| == n && forall i :: 0 <= i < n ==> z[i] == 0
  {
    seq(n, i => 0)
  }

  /** Too little room for a header: the rest of the block is filled with zeros. */
  function Padding(offset: nat): Bytes
    requires offset <= BLOCK
  {
    if BLOCK - offset < HEADER then Zeros(BLOCK - offset) else []
  }

  /** The place of a file position within its block. */
  function Off(pos: nat): (o: nat)
    ensures o < BLOCK
  {
    pos % BLOCK
  }

  /** Where the next fragment begins within its block. */
  function Start(offset: nat): (s: nat)
    requires offset <= BLOCK
    ensures s <= BLOCK - HEADER
  {
    if BLOCK - offset < HEADER then 0 else offset
  }

  /** How much of the record the next fragment takes. */
  function Take(offset: nat, left: nat): (n: nat)
    requires offset <= BLOCK
    ensures n <= left && Start(offset) + HEADER + n <= BLOCK
  {
    var avail := BLOCK - Start(offset) - HEADER;
    if left < avail then left else avail
  }

  function TypeOf(begin: bool, end: bool): byte
  {
    if begin && end then FULL else if begin then FIRST else if end then LAST else MIDDLE
  }

  /** The bytes that a record adds to a log at the given block offset. */
  function Fragments(crc: Crc, offset: nat, data: Bytes, begin: bool): Bytes
    requires offset <= BLOCK
    decreases |data|, BLOCK - offset
  {
    var n := Take(offset, |data|);
    var here := Padding(offset) + Physical(crc, TypeOf(begin, n == |data|), data[..n]);
    if n == |data| then here
    else here + Fragments(crc, Start(offset) + HEADER + n, data[n..], false)
  }

  /** A log file holding the given records. */
  function LogOf(crc: Crc, records: seq<Bytes>): Bytes
  {
    if records == [] then []
    else
      var before := LogOf(crc, records[..|records| - 1]);
      before + Fragments(crc, Off(|before|), records[|records| - 1], true)
  }

  /** A full block leaves the same state as an empty one. */
  lemma FullIsEmpty(crc: Crc, data: Bytes, begin: bool)
    ensures Fragments(crc, BLOCK, data, begin) == Fragments(crc, 0, data, begin)
  {
    assert Padding(BLOCK) == [] && Padding(0) == [];
  }

  lemma ModAdd(a: nat, b: nat, n: nat)
    requires Off(a) == Off(b)
    ensures Off(a + n) == Off(b + n)
  {
  }

  lemma PaddingFills(offset: nat, length: nat)
    requires offset <= BLOCK && Off(offset) == Off(length)
    ensures Off(length + (BLOCK - offset)) == Off(0)
  {
    ModAdd(offset, length, BLOCK - offset);
    assert Off(BLOCK) == 0;
  }

  class Writer {
    const crc: Crc
    var dest: Bytes
    var blockOffset: nat

    /** Opens a writer at the end of a file; an empty file for a new log. */
    constructor (crc: Crc, dest: Bytes)
      ensures this.crc == crc && this.dest == dest && Valid()
    {
      this.crc := crc;
      this.dest := dest;
      blockOffset := Off(|dest|);
    }

    ghost predicate Valid()
      reads this
    {
      blockOffset <= BLOCK && Off(blockOffset) == Off(|dest|)
    }

    method EmitPhysicalRecord(t: byte, data: Bytes)
      requires Valid() && blockOffset + HEADER + |data| <= BLOCK
      modifies this
      ensures Valid() && dest == old(dest) + Physical(crc, t, data) && blockOffset == old(blockOffset) + HEADER + |data|
    {
      hide Physical;
      ModAdd(blockOffset, |dest|, HEADER + |data|);
      dest := dest + Physical(crc, t, data);
      blockOffset := blockOffset + HEADER + |data|;
    }

    /** Emits the next fragment of a record, after padding if the block is too full for a header. */
    method EmitFragment(left: Bytes, begin: bool) returns (n: nat)
      requires Valid()
      modifies this
      ensures Valid() && n == Take(old(blockOffset), |left|) && blockOffset == Start(old(blockOffset)) + HEADER + n
      ensures dest == old(dest) + (Padding(old(blockOffset)) + Physical(crc, TypeOf(begin, n == |left|), left[..n]))
    {
      hide Physical, Off;
      ghost var here, offset := dest, blockOffset;
      var leftover := BLOCK - blockOffset;
      if leftover < HEADER {
        PaddingFills(blockOffset, |dest|);
        dest := dest + Zeros(leftover);
        blockOffset := 0;
      }
      assert dest == here + Padding(offset) && blockOffset == Start(offset);
      var avail := BLOCK - blockOffset - HEADER;
      n := if |left| < avail then |left| else avail;
      var end := |left| == n;
      var t := if begin && end then FULL else if begin then FIRST else if end then LAST else MIDDLE;
      EmitPhysicalRecord(t, left[..n]);
    }

    /** Appends a record, cut into as many fragments as the blocks require. */
    method AddRecord(record: Bytes)
      requires Valid()
      modifies this
      ensures Valid() && dest == old(dest) + Fragments(crc, Off(old(|dest|)), record, true)
    {
      hide Physical, Padding, TypeOf;
      ghost var goal := dest + Fragments(crc, blockOffset, record, true);
      OffsetAgrees(crc, blockOffset, |dest|, record);
      var left := record;
      var begin := true;
      var more := true;
      while more
        invariant Valid()
        invariant more ==> dest + Fragments(crc, blockOffset, left, begin) == goal
        invariant !more ==> dest == goal
        decreases more, |left|, BLOCK - blockOffset
      {
        FragmentsStep(crc, dest, blockOffset, left, begin);
        var n := EmitFragment(left, begin);
        begin := false;
        left := left[n..];
        more := |left| > 0;
      }
    }
  }

  /** The writer's offset stands for the length of the file within its block. */
  lemma OffsetAgrees(crc: Crc, offset: nat, length: nat, data: Bytes)
    requires offset <= BLOCK && Off(offset) == Off(length)
    ensures Fragments(crc, offset, data, true) == Fragments(crc, Off(length), data, true)
  {
    FullIsEmpty(crc, data, true);
    hide Fragments;
    assert offset == BLOCK ==> Off(offset) == 0;
    assert offset < BLOCK ==> Off(offset) == offset;
  }

  lemma FragmentsStep(crc: Crc, dest: Bytes, offset: nat, data: Bytes, begin: bool)
    requires offset <= BLOCK
    ensures var n := Take(offset, |data|);
            var piece := Padding(offset) + Physical(crc, TypeOf(begin, n == |data|), data[..n]);
            dest + Fragments(crc, offset, data, begin) ==
            if n == |data| then dest + piece
            else dest + piece + Fragments(crc, Start(offset) + HEADER + n, data[n..], false)
  {
    hide Physical, Padding;
    var n := Take(offset, |data|);
    var piece := Padding(offset) + Physical(crc, TypeOf(begin, n == |data|), data[..n]);
    if n != |data| {
      var rest := Fragments(crc, Start(offset) + HEADER + n, data[n..], false);
      assert dest + (piece + rest) == dest + piece + rest;
    }
  }

  /** The end of the block that holds position `pos`. */
  function BlockEnd(pos: nat): (e: nat)
    ensures pos < e <= pos + BLOCK && e % BLOCK == 0
  {
    (pos / BLOCK + 1) * BLOCK
  }

  /** One step of the reader: what it finds, where it continues, how many corruptions it reports. */
  datatype Found = Found(kind: int, data: Bytes, next: nat, reports: nat)

  /** The bytes of the block from `pos` on that the file holds. */
  function Rest(file: Bytes, pos: nat): (r: Bytes)
    requires pos <= |file|
  {
    if BlockEnd(pos) <= |file| then file[pos..BlockEnd(pos)] else file[pos..]
  }

  function LengthField(b: Bytes): nat
    requires |b| >= HEADER
  {
    b[4] as int + b[5] as int * 256
  }

  /** Reads the fragment at the head of `buffer`; `last` says that the file ends with the buffer. */
  function ParseFragment(crc: Crc, buffer: Bytes, pos: nat, last: bool): Found
    requires |buffer| >= HEADER
  {
    var n := LengthField(buffer);
    if HEADER + n > |buffer| then
      if last then Found(EOF, [], pos + |buffer|, 0) else Found(BAD, [], pos + |buffer|, 1)
    else if buffer[6] == 0 && n == 0 then Found(BAD, [], pos + |buffer|, 0)
    else if Unmask(DecodeFixed32(buffer)) != crc(buffer[6..HEADER + n]) then Found(BAD, [], pos + |buffer|, 1)
    else Found(buffer[6], buffer[HEADER..HEADER + n], pos + HEADER + n, 0)
  }

  /** The next fragment from `pos`, skipping the rest of a block too short for a header. */
  function PhysicalAt(crc: Crc, file: Bytes, pos: nat): (f: Found)
    requires pos <= |file|
    ensures f.kind != EOF ==> pos < f.next <= |file|
    ensures f.next <= |file|
    decreases |file| - pos
  {
    var buffer := Rest(file, pos);
    if |buffer| < HEADER then
      if BlockEnd(pos) <= |file| then PhysicalAt(crc, file, BlockEnd(pos)) else Found(EOF, [], |file|, 0)
    else ParseFragment(crc, buffer, pos, BlockEnd(pos) > |file|)
  }

  /** What reading one record delivers. */
  datatype Got = Got(ok: bool, record: Bytes, next: nat, reports: nat)

  function AddReports(g: Got, n: nat): Got
  {
    g.(reports := g.reports + n)
  }

  /** Puts fragments together from `pos` on; `fragmented` says that `scratch` holds a begun record. */
  function RecordAt(crc: Crc, file: Bytes, pos: nat, scratch: Bytes, fragmented: bool): (g: Got)
    requires pos <= |file|
    ensures g.next <= |file| && (g.ok ==> pos < g.next)
    decreases |file| - pos
  {
    var f := PhysicalAt(crc, file, pos);
    var partial := if fragmented && scratch != [] then 1 else 0;
    if f.kind == EOF then Got(false, [], f.next, f.reports)
    else if f.kind == FULL then Got(true, f.data, f.next, f.reports + partial)
    else if f.kind == FIRST then AddReports(RecordAt(crc, file, f.next, f.data, true), f.reports + partial)
    else if f.kind == MIDDLE then
      if fragmented then AddReports(RecordAt(crc, file, f.next, scratch + f.data, true), f.reports)
      else AddReports(RecordAt(crc, file, f.next, scratch, false), f.reports + 1)
    else if f.kind == LAST then
      if fragmented then Got(true, scratch + f.data, f.next, f.reports)
      else AddReports(RecordAt(crc, file, f.next, scratch, false), f.reports + 1)
    else if f.kind == BAD then
      AddReports(RecordAt(crc, file, f.next, if fragmented then [] else scratch, false),
                 f.reports + if fragmented then 1 else 0)
    else AddReports(RecordAt(crc, file, f.next, [], false), f.reports + 1)
  }

  /** All records a reader delivers from `pos` on, and the corruptions it reports on the way. */
  function AllFrom(crc: Crc, file: Bytes, pos: nat): (seq<Bytes>, nat)
    requires pos <= |file|
    decreases |file| - pos
  {
    var g := RecordAt(crc, file, pos, [], false);
    if !g.ok then ([], g.reports)
    else
      var (records, reports) := AllFrom(crc, file, g.next);
      ([g.record] + records, g.reports + reports)
  }

  class Reader {
    const crc: Crc
    const file: Bytes
    var readPos: nat     // bytes taken from the file
    var buffer: Bytes    // the unread part of the last block taken
    var eof: bool
    var reports: nat

    constructor (crc: Crc, file: Bytes)
      ensures this.crc == crc && this.file == file && reports == 0
      ensures Valid() && Pos() == 0
    {
      this.crc, this.file := crc, file;
      readPos, buffer, eof, reports := 0, [], false, 0;
    }

    ghost predicate Valid()
      reads this
    {
      && readPos <= |file| && |buffer| <= readPos && buffer == file[readPos - |buffer|..readPos]
      && (eof ==> readPos == |file| && |buffer| <= readPos % BLOCK)
      && (!eof ==> readPos % BLOCK == 0 && |buffer| <= BLOCK)
    }

    ghost function Pos(): nat
      requires Valid()
      reads this
    {
      readPos - |buffer|
    }

    /** Takes the next block from the file. */
    method ReadBlock()
      requires Valid() && !eof
      modifies this
      ensures Valid() && Pos() == old(readPos) && reports == old(reports)
      ensures readPos == if old(readPos) + BLOCK <= |file| then old(readPos) + BLOCK else |file|
      ensures eof == (old(readPos) + BLOCK > |file|)
    {
      if readPos + BLOCK <= |file| {
        buffer := file[readPos..readPos + BLOCK];
        readPos := readPos + BLOCK;
      } else {
        buffer := file[readPos..];
        readPos := |file|;
        eof := true;
      }
    }

    /** The buffer is the unread rest of its block. */
    lemma BufferIsRest()
      requires Valid()
      ensures |buffer| > 0 ==> buffer == Rest(file, Pos()) && (eof <==> BlockEnd(Pos()) > |file|)
      ensures |buffer| > 0 ==> (!eof ==> BlockEnd(Pos()) == readPos)
      ensures |buffer| == 0 && eof ==> BlockEnd(Pos()) > |file| && Rest(file, Pos()) == []
    {
      BlockFacts(Pos(), readPos);
    }

    method ReadPhysicalRecord() returns (kind: int, fragment: Bytes)
      requires Valid()
      modifies this
      ensures Valid()
      ensures var f := PhysicalAt(crc, file, old(Pos()));
              kind == f.kind && fragment == f.data && Pos() == f.next && reports == old(reports) + f.reports
    {
      hide ParseFragment, Rest, BlockEnd;
      while true
        invariant Valid() && reports == old(reports)
        invariant PhysicalAt(crc, file, Pos()) == PhysicalAt(crc, file, old(Pos()))
        decreases |file| - readPos, !eof
      {
        BufferIsRest();
        if |buffer| < HEADER {
          if !eof {
            ReadBlock();
          } else {
            buffer := [];
            return EOF, [];
          }
        } else {
          kind, fragment := TakeFragment();
          return;
        }
      }
    }

    /** Parses the header at the head of the buffer and takes the fragment, or drops the buffer. */
    method TakeFragment() returns (kind: int, fragment: Bytes)
      requires Valid() && |buffer| >= HEADER
      modifies this
      ensures Valid()
      ensures var f := ParseFragment(crc, old(buffer), old(Pos()), old(eof));
              kind == f.kind && fragment == f.data && Pos() == f.next && reports == old(reports) + f.reports
    {
      hide Unmask, DecodeFixed32;
      var n := buffer[4] as int + buffer[5] as int * 256;
      if HEADER + n > |buffer| {
        buffer := [];
        if !eof {
          reports := reports + 1;
          return BAD, [];
        }
        return EOF, [];
      }
      if buffer[6] == 0 && n == 0 {
        buffer := [];
        return BAD, [];
      }
      if Unmask(DecodeFixed32(buffer)) != crc(buffer[6..HEADER + n]) {
        buffer := [];
        reports := reports + 1;
        return BAD, [];
      }
      kind, fragment := buffer[6], buffer[HEADER..HEADER + n];
      buffer := buffer[HEADER + n..];
    }

    /** Delivers the next logical record. */
    method ReadRecord() returns (ok: bool, record: Bytes)
      requires Valid()
      modifies this
      ensures Valid()
      ensures var g := RecordAt(crc, file, old(Pos()), [], false);
              ok == g.ok && (ok ==> record == g.record) && Pos() == g.next && reports == old(reports) + g.reports
    {
      hide PhysicalAt, Rest, BlockEnd;
      var scratch: Bytes := [];
      var fragmented := false;
      ghost var goal := RecordAt(crc, file, Pos(), [], false);
      while true
        invariant Valid() && old(reports) <= reports
        invariant AddReports(RecordAt(crc, file, Pos(), scratch, fragmented), reports - old(reports)) == goal
        decreases |file| - Pos()
      {
        var kind, fragment := ReadPhysicalRecord();
        if kind == FULL {
          if fragmented && scratch != [] {
            reports := reports + 1;
          }
          return true, fragment;
        } else if kind == FIRST {
          if fragmented && scratch != [] {
            reports := reports + 1;
          }
          scratch := fragment;
          fragmented := true;
        } else if kind == MIDDLE {
          if !fragmented {
            reports := reports + 1;
          } else {
            scratch := scratch + fragment;
          }
        } else if kind == LAST {
          if !fragmented {
            reports := reports + 1;
          } else {
            return true, scratch + fragment;
          }
        } else if kind == EOF {
          return false, [];
        } else if kind == BAD {
          if fragmented {
            reports := reports + 1;
            fragmented := false;
            scratch := [];
          }
        } else {
          reports := reports + 1;
          fragmented := false;
          scratch := [];
        }
      }
    }
  }

  lemma BlockFacts(pos: nat, readPos: nat)
    requires pos <= readPos
    ensures readPos % BLOCK == 0 && pos < readPos <= pos + BLOCK ==> BlockEnd(pos) == readPos
    ensures readPos - pos <= readPos % BLOCK ==> BlockEnd(pos) > readPos
  {
    var q := readPos / BLOCK;
    if readPos % BLOCK == 0 && pos < readPos <= pos + BLOCK {
      assert (q - 1) * BLOCK <= pos < q * BLOCK;
      assert pos / BLOCK == q - 1;
    }
    if readPos - pos <= readPos % BLOCK {
      assert q * BLOCK <= pos;
      assert pos / BLOCK == q;
    }
  }

  lemma BlockEndIs(pos: nat)
    ensures BlockEnd(pos) == pos + BLOCK - Off(pos)
  {
  }

  /** A whole fragment at the head of a buffer is delivered. */
  lemma ParseWhole(crc: Crc, t: byte, data: Bytes, tail: Bytes, pos: nat, last: bool)
    requires |data| < 65536 && t != 0
    ensures ParseFragment(crc, Physical(crc, t, data) + tail, pos, last) == Found(t, data, pos + HEADER + |data|, 0)
  {
    var sum := crc([t] + data);
    var buffer := Physical(crc, t, data) + tail;
    assert buffer == Fixed32(Mask(sum)) + ([|data| % 256, |data| / 256, t] + data + tail);
    Fixed32RoundTrip(Mask(sum), [|data| % 256, |data| / 256, t] + data + tail);
    UnmaskMask(sum);
    hide Mask, Unmask, DecodeFixed32, Fixed32;
    assert buffer[4] == |data| % 256 && buffer[5] == |data| / 256 && buffer[6] == t;
    assert buffer[6..HEADER + |data|] == [t] + data;
    assert buffer[HEADER..HEADER + |data|] == data;
  }

  /** A fragment cut off by the end of the file reads as the end of the file. */
  lemma ParseCut(crc: Crc, t: byte, data: Bytes, k: nat, pos: nat)
    requires |data| < 65536 && HEADER <= k < HEADER + |data|
    ensures ParseFragment(crc, Physical(crc, t, data)[..k], pos, true) == Found(EOF, [], pos + k, 0)
  {
    var buffer := Physical(crc, t, data)[..k];
    hide Mask, Unmask, DecodeFixed32, Fixed32;
    assert buffer[4] == |data| % 256 && buffer[5] == |data| / 256;
  }

  /** A fragment that begins at `q` is delivered when it is whole, and ends the reading when it is not. */
  lemma FragmentAt(crc: Crc, log: Bytes, n: nat, q: nat, t: byte, data: Bytes, rest: Bytes)
    requires q <= n <= |log| && t != 0 && Off(q) + HEADER + |data| <= BLOCK
    requires log[q..] == Physical(crc, t, data) + rest
    ensures PhysicalAt(crc, log[..n], q) ==
            if n >= q + HEADER + |data| then Found(t, data, q + HEADER + |data|, 0) else Found(EOF, [], n, 0)
  {
    var file := log[..n];
    var buffer := Rest(file, q);
    BlockEndIs(q);
    var whole := Physical(crc, t, data);
    hide Physical, ParseFragment, BlockEnd;
    var k := |buffer|;
    assert k == if BlockEnd(q) <= n then BlockEnd(q) - q else n - q;
    assert forall i :: 0 <= i < k ==> buffer[i] == log[q..][i];
    if k >= HEADER + |data| {
      var tail := buffer[HEADER + |data|..];
      assert buffer == whole + tail;
      ParseWhole(crc, t, data, tail, q, BlockEnd(q) > n);
    } else if k >= HEADER {
      assert buffer == whole[..k];
      ParseCut(crc, t, data, k, q);
    }
  }

  /** Padding is skipped: reading goes on at the next block, or the file ends. */
  lemma PaddingAt(crc: Crc, file: Bytes, p: nat)
    requires p <= |file| && BLOCK - Off(p) < HEADER
    ensures var e := p + BLOCK - Off(p);
            PhysicalAt(crc, file, p) == if e <= |file| then PhysicalAt(crc, file, e) else Found(EOF, [], |file|, 0)
  {
    BlockEndIs(p);
  }

  lemma NextBlock(p: nat)
    ensures Off(p + BLOCK - Off(p)) == 0
  {
    var q := p / BLOCK;
    assert p + BLOCK - Off(p) == (q + 1) * BLOCK;
  }

  /** What follows the first fragment of a record. */
  function More(crc: Crc, offset: nat, data: Bytes): Bytes
    requires offset <= BLOCK
  {
    var n := Take(offset, |data|);
    if n == |data| then [] else Fragments(crc, Start(offset) + HEADER + n, data[n..], false)
  }

  function FirstPiece(crc: Crc, offset: nat, data: Bytes, begin: bool): Bytes
    requires offset <= BLOCK
  {
    var n := Take(offset, |data|);
    Physical(crc, TypeOf(begin, n == |data|), data[..n])
  }

  lemma FragmentsSplit(crc: Crc, offset: nat, data: Bytes, begin: bool)
    requires offset <= BLOCK
    ensures Fragments(crc, offset, data, begin) == Padding(offset) +
                                                   (FirstPiece(crc, offset, data, begin) + More(crc, offset, data))
  {
    hide Physical, Padding, TypeOf;
  }

  lemma DropPrefix(log: Bytes, p: nat, a: Bytes, b: Bytes)
    requires p <= |log| && log[p..] == a + b
    ensures p + |a| <= |log| && log[p + |a|..] == b
  {
    assert log[p..][|a|..] == log[p + |a|..];
  }

  lemma FillsBlock(q: nat, k: nat)
    requires Off(q) + k == BLOCK
    ensures Off(q + k) == 0
  {
    var a := q / BLOCK;
    assert q + k == (a + 1) * BLOCK;
  }

  /** Where the first fragment of a record at `p` begins. */
  lemma FragmentStart(p: nat)
    ensures Off(p + |Padding(Off(p))|) == Start(Off(p))
  {
    if BLOCK - Off(p) < HEADER {
      NextBlock(p);
    }
  }

  /** After any padding, the log holds the first fragment and then the rest. */
  lemma PieceAt(crc: Crc, log: Bytes, p: nat, data: Bytes, begin: bool, rest: Bytes)
    requires p <= |log| && log[p..] == Fragments(crc, Off(p), data, begin) + rest
    ensures var m := Take(Off(p), |data|);
            var q := p + |Padding(Off(p))|;
            q <= |log| &&
            log[q..] == Physical(crc, TypeOf(begin, m == |data|), data[..m]) + (More(crc, Off(p), data) + rest)
  {
    var offset := Off(p);
    hide Physical, Fragments, Padding, More, TypeOf, Off;
    FragmentsSplit(crc, offset, data, begin);
    var pad, piece, more := Padding(offset), FirstPiece(crc, offset, data, begin), More(crc, offset, data);
    assert log[p..] == pad + (piece + (more + rest));
    DropPrefix(log, p, pad, piece + (more + rest));
  }

  /** The first fragment of a record at `p`, after any padding. */
  lemma FirstFragment(crc: Crc, log: Bytes, n: nat, p: nat, data: Bytes, begin: bool, rest: Bytes)
    requires p <= n <= |log| && log[p..] == Fragments(crc, Off(p), data, begin) + rest
    ensures var m := Take(Off(p), |data|);
            var r := p + |Padding(Off(p))| + HEADER + m;
            PhysicalAt(crc, log[..n], p) ==
            if n >= r then Found(TypeOf(begin, m == |data|), data[..m], r, 0) else Found(EOF, [], n, 0)
  {
    hide Physical, PhysicalAt, Fragments, More, Off, Take;
    var m := Take(Off(p), |data|);
    var t := TypeOf(begin, m == |data|);
    hide TypeOf;
    assert t != 0 by { TypeIsNonzero(begin, m == |data|); }
    var q := p + |Padding(Off(p))|;
    PieceAt(crc, log, p, data, begin, rest);
    FragmentStart(p);
    var file := log[..n];
    assert PhysicalAt(crc, file, p) == if q <= n then PhysicalAt(crc, file, q) else Found(EOF, [], n, 0) by {
      if BLOCK - Off(p) < HEADER {
        PaddingAt(crc, file, p);
      }
    }
    hide Padding, Start;
    if q <= n {
      FragmentAt(crc, log, n, q, t, data[..m], More(crc, Off(p), data) + rest);
    }
  }

  lemma TypeIsNonzero(begin: bool, end: bool)
    ensures TypeOf(begin, end) != 0
  {
  }

  /** A record that does not fit fills its block; the rest of it starts the next one. */
  lemma RestOfRecord(crc: Crc, log: Bytes, p: nat, data: Bytes, begin: bool, rest: Bytes)
    requires p <= |log| && log[p..] == Fragments(crc, Off(p), data, begin) + rest && Take(Off(p), |data|) < |data|
    ensures var m := Take(Off(p), |data|);
            var r := p + |Padding(Off(p))| + HEADER + m;
            && r <= |log| && Off(r) == 0 && log[r..] == Fragments(crc, 0, data[m..], false) + rest
            && p + |Fragments(crc, Off(p), data, begin)| == r + |Fragments(crc, 0, data[m..], false)|
  {
    var offset := Off(p);
    var m := Take(offset, |data|);
    var pad, piece, more := Padding(offset), FirstPiece(crc, offset, data, begin), More(crc, offset, data);
    var r := p + |pad| + HEADER + m;
    FragmentsSplit(crc, offset, data, begin);
    assert Start(offset) + HEADER + m == BLOCK;
    assert more == Fragments(crc, 0, data[m..], false) by {
      FullIsEmpty(crc, data[m..], false);
    }
    assert Off(r) == 0 by {
      hide Padding;
      FragmentStart(p);
      FillsBlock(p + |pad|, HEADER + m);
    }
    assert |piece| == HEADER + m;
    hide Physical, Fragments, FirstPiece, More, Padding;
    assert log[p..] == (pad + piece) + (more + rest);
    DropPrefix(log, p, pad + piece, more + rest);
  }

  /** The reader delivers the record exactly when all its bytes are there, and reports nothing. */
  ghost predicate Delivers(crc: Crc, file: Bytes, p: nat, data: Bytes, begin: bool, scratch: Bytes)
    requires p <= |file|
  {
    var r := p + |Fragments(crc, Off(p), data, begin)|;
    var g := RecordAt(crc, file, p, scratch, !begin);
    if |file| >= r then g == Got(true, scratch + data, r, 0) else !g.ok && g.reports == 0
  }

  lemma DeliversLast(crc: Crc, log: Bytes, n: nat, p: nat, data: Bytes, begin: bool, scratch: Bytes, rest: Bytes)
    requires p <= n <= |log| && log[p..] == Fragments(crc, Off(p), data, begin) + rest && (begin ==> scratch == [])
    requires Take(Off(p), |data|) == |data|
    ensures Delivers(crc, log[..n], p, data, begin, scratch)
  {
    hide PhysicalAt, Fragments, Padding, Physical, Off, RecordAt, Take;
    FirstFragment(crc, log, n, p, data, begin, rest);
    RecordStep(crc, log[..n], p, scratch, begin, true);
    LastLength(crc, Off(p), data, begin);
    assert data[..|data|] == data;
  }

  lemma DeliversMore(crc: Crc, log: Bytes, n: nat, p: nat, data: Bytes, begin: bool, scratch: Bytes, rest: Bytes)
    requires p <= n <= |log| && log[p..] == Fragments(crc, Off(p), data, begin) + rest && (begin ==> scratch == [])
    requires Take(Off(p), |data|) < |data|
    requires var m := Take(Off(p), |data|);
             var r := p + |Padding(Off(p))| + HEADER + m;
             r <= n ==> Delivers(crc, log[..n], r, data[m..], false, scratch + data[..m])
    ensures Delivers(crc, log[..n], p, data, begin, scratch)
  {
    hide PhysicalAt, Fragments, Padding, Physical, Off, RecordAt, Take;
    var m := Take(Off(p), |data|);
    FirstFragment(crc, log, n, p, data, begin, rest);
    RecordStep(crc, log[..n], p, scratch, begin, false);
    RestOfRecord(crc, log, p, data, begin, rest);
    assert scratch + data[..m] + data[m..] == scratch + data;
  }

  /**
   Reading a record back from a possibly cut-off log: it is delivered exactly when all its bytes
   are there, and nothing is reported either way.
   */
  lemma {:induction false} ReadBack(crc: Crc, log: Bytes, n: nat, p: nat, data: Bytes, begin: bool, scratch: Bytes,
                                    rest: Bytes)
    requires p <= n <= |log| && log[p..] == Fragments(crc, Off(p), data, begin) + rest && (begin ==> scratch == [])
    ensures Delivers(crc, log[..n], p, data, begin, scratch)
    decreases |data|, if Take(Off(p), |data|) == 0 then 1 else 0
  {
    hide Delivers, Fragments, Padding, Off, Take;
    var m := Take(Off(p), |data|);
    if m == |data| {
      DeliversLast(crc, log, n, p, data, begin, scratch, rest);
    } else {
      var r := p + |Padding(Off(p))| + HEADER + m;
      RestOfRecord(crc, log, p, data, begin, rest);
      NextTakes(|data| - m);
      if r <= n {
        ReadBack(crc, log, n, r, data[m..], false, scratch + data[..m], rest);
      }
      DeliversMore(crc, log, n, p, data, begin, scratch, rest);
    }
  }

  lemma NextTakes(left: nat)
    ensures left > 0 ==> Take(0, left) > 0
  {
  }

  /** One turn of the reader's loop on an intact or missing fragment. */
  lemma RecordStep(crc: Crc, file: Bytes, p: nat, scratch: Bytes, begin: bool, end: bool)
    requires p <= |file| && (begin ==> scratch == [])
    ensures var f := PhysicalAt(crc, file, p);
            var g := RecordAt(crc, file, p, scratch, !begin);
            && (f.kind == EOF && f.reports == 0 ==> !g.ok && g.reports == 0)
            && (f.kind == TypeOf(begin, end) && f.reports == 0 && end ==> g == Got(true, scratch + f.data, f.next, 0))
            && (f.kind == TypeOf(begin, end) && f.reports == 0 && !end ==>
                  g == RecordAt(crc, file, f.next, scratch + f.data, true))
  {
    hide PhysicalAt;
    var f := PhysicalAt(crc, file, p);
    assert begin ==> scratch + f.data == f.data;
  }

  lemma LastLength(crc: Crc, offset: nat, data: Bytes, begin: bool)
    requires offset <= BLOCK && Take(offset, |data|) == |data|
    ensures |Fragments(crc, offset, data, begin)| == |Padding(offset)| + HEADER + |data|
  {
  }

  /** The records that lie wholly in the first `n` bytes. */
  function Contained(crc: Crc, records: seq<Bytes>, n: nat): (k: nat)
    ensures k <= |records|
  {
    if records == [] then 0
    else if |LogOf(crc, records)| <= n then |records|
    else Contained(crc, records[..|records| - 1], n)
  }

  /** `Contained` counts exactly: those records fit, one more does not. */
  lemma {:induction false} ContainedExact(crc: Crc, records: seq<Bytes>, n: nat)
    ensures |LogOf(crc, records[..Contained(crc, records, n)])| <= n
    ensures Contained(crc, records, n) < |records| ==> |LogOf(crc, records[..Contained(crc, records, n) + 1])| > n
  {
    hide LogOf;
    if records != [] && |LogOf(crc, records)| > n {
      var front := records[..|records| - 1];
      ContainedExact(crc, front, n);
      var k := Contained(crc, front, n);
      assert front[..k] == records[..k];
      if k < |front| {
        assert front[..k + 1] == records[..k + 1];
      } else {
        assert records[..k + 1] == records;
      }
    } else {
      assert records[..|records|] == records;
      EmptyLog(crc);
    }
  }

  lemma EmptyLog(crc: Crc)
    ensures LogOf(crc, []) == []
  {
  }

  lemma {:induction false} LogPrefix(crc: Crc, records: seq<Bytes>, k: nat)
    requires k <= |records|
    ensures LogOf(crc, records[..k]) <= LogOf(crc, records)
    decreases |records|
  {
    hide Fragments;
    if k < |records| {
      var front := records[..|records| - 1];
      LogPrefix(crc, front, k);
      assert front[..k] == records[..k];
    } else {
      assert records[..k] == records;
    }
  }

  /** The log from the end of the first `k` records on begins with the next record. */
  lemma RecordStart(crc: Crc, records: seq<Bytes>, k: nat) returns (rest: Bytes)
    requires k < |records|
    ensures var p := |LogOf(crc, records[..k])|;
            && p <= |LogOf(crc, records)|
            && LogOf(crc, records)[p..] == Fragments(crc, Off(p), records[k], true) + rest
            && |LogOf(crc, records[..k + 1])| == p + |Fragments(crc, Off(p), records[k], true)|
  {
    hide Fragments;
    var upto := records[..k + 1];
    assert upto[..|upto| - 1] == records[..k] && upto[|upto| - 1] == records[k];
    LogPrefix(crc, records, k + 1);
    LogPrefix(crc, records, k);
    var log, next := LogOf(crc, records), LogOf(crc, upto);
    var p := |LogOf(crc, records[..k])|;
    rest := log[|next|..];
    assert log == next + rest;
    assert next == LogOf(crc, records[..k]) + Fragments(crc, Off(p), records[k], true);
    assert log[p..] == Fragments(crc, Off(p), records[k], true) + rest;
  }

  /** From the end of record `k` on, a reader of the cut-off log delivers the rest of the whole records. */
  lemma {:induction false} ReadRest(crc: Crc, records: seq<Bytes>, n: nat, k: nat)
    requires n <= |LogOf(crc, records)| && k <= Contained(crc, records, n)
    requires |LogOf(crc, records[..k])| <= n
    ensures AllFrom(crc, LogOf(crc, records)[..n], |LogOf(crc, records[..k])|)
         == (records[k..Contained(crc, records, n)], 0)
    decreases |records| - k
  {
    var log := LogOf(crc, records);
    var c := Contained(crc, records, n);
    ContainedExact(crc, records, n);
    hide AllFrom, LogOf, Contained;
    if k == |records| {
      assert records[..k] == records;
      EndOfLog(crc, log, n);
    } else {
      ReadOne(crc, records, n, k);
      if k < c {
        WholeRecords(crc, records, k + 1, c);
        ReadRest(crc, records, n, k + 1);
        ConsSlice(records, k, c);
      } else {
        assert records[k..c] == [];
      }
    }
  }

  lemma ConsSlice<T>(s: seq<T>, k: nat, c: nat)
    requires k < c <= |s|
    ensures [s[k]] + s[k + 1..c] == s[k..c]
  {
  }

  /** At the end of record `k`, the next record is delivered if it is whole; otherwise reading ends. */
  lemma ReadOne(crc: Crc, records: seq<Bytes>, n: nat, k: nat)
    requires n <= |LogOf(crc, records)| && k < |records| && |LogOf(crc, records[..k])| <= n
    ensures var p, q := |LogOf(crc, records[..k])|, |LogOf(crc, records[..k + 1])|;
            var file := LogOf(crc, records)[..n];
            AllFrom(crc, file, p) ==
            if n < q then ([], 0) else ([records[k]] + AllFrom(crc, file, q).0, AllFrom(crc, file, q).1)
  {
    hide RecordAt, LogOf, Fragments;
    var p := |LogOf(crc, records[..k])|;
    var rest := RecordStart(crc, records, k);
    ReadBack(crc, LogOf(crc, records), n, p, records[k], true, [], rest);
    assert [] + records[k] == records[k];
  }

  lemma WholeRecords(crc: Crc, records: seq<Bytes>, j: nat, c: nat)
    requires j <= c <= |records|
    ensures |LogOf(crc, records[..j])| <= |LogOf(crc, records[..c])|
  {
    LogPrefix(crc, records[..c], j);
    assert records[..c][..j] == records[..j];
  }

  lemma EndOfLog(crc: Crc, log: Bytes, n: nat)
    requires n <= |log|
    ensures AllFrom(crc, log[..n], n) == ([], 0)
  {
    BlockEndIs(n);
  }

  /**
   The crash theorem: from any prefix of a log, a reader delivers exactly the records that lie
   wholly in the prefix, in order, and reports no corruption.
   */
  lemma CrashPrefix(crc: Crc, records: seq<Bytes>, n: nat)
    requires n <= |LogOf(crc, records)|
    ensures AllFrom(crc, LogOf(crc, records)[..n], 0) == (records[..Contained(crc, records, n)], 0)
  {
    ReadRest(crc, records, n, 0);
    assert records[..0] == [];
    assert records[0..Contained(crc, records, n)] == records[..Contained(crc, records, n)];
  }

  /** Writing: each record extends the log, whether by the same writer or by one opened later. */
  lemma AppendExtends(crc: Crc, records: seq<Bytes>, record: Bytes)
    ensures LogOf(crc, records + [record]) ==
            LogOf(crc, records) + Fragments(crc, Off(|LogOf(crc, records)|), record, true)
  {
    assert (records + [record])[..|records|] == records;
  }

  /** Reads a whole file with a fresh reader. */
  method ReadLog(crc: Crc, file: Bytes) returns (records: seq<Bytes>, reports: nat)
    ensures (records, reports) == AllFrom(crc, file, 0)
  {
    var reader := new Reader(crc, file);
    records := [];
    hide RecordAt, AllFrom;
    AllStart(crc, file);
    while true
      invariant fresh(reader) && reader.Valid() && reader.crc == crc && reader.file == file
      invariant Remaining(crc, file, reader.Pos(), records, reader.reports)
      decreases |file| - reader.Pos()
    {
      AllStep(crc, file, reader.Pos(), records, reader.reports);
      var ok, record := reader.ReadRecord();
      if !ok {
        return records, reader.reports;
      }
      records := records + [record];
    }
  }

  /** What is still to be read completes what has been read. */
  ghost predicate Remaining(crc: Crc, file: Bytes, pos: nat, records: seq<Bytes>, reports: nat)
    requires pos <= |file|
  {
    AllFrom(crc, file, 0) == (records + AllFrom(crc, file, pos).0, reports + AllFrom(crc, file, pos).1)
  }

  lemma AllStart(crc: Crc, file: Bytes)
    ensures Remaining(crc, file, 0, [], 0)
  {
    assert [] + AllFrom(crc, file, 0).0 == AllFrom(crc, file, 0).0;
  }

  lemma AllStep(crc: Crc, file: Bytes, pos: nat, records: seq<Bytes>, reports: nat)
    requires pos <= |file| && Remaining(crc, file, pos, records, reports)
    ensures var g := RecordAt(crc, file, pos, [], false);
            if g.ok then Remaining(crc, file, g.next, records + [g.record], reports + g.reports)
            else AllFrom(crc, file, 0) == (records, reports + g.reports)
  {
    hide RecordAt;
    var g := RecordAt(crc, file, pos, [], false);
    if g.ok {
      var more := AllFrom(crc, file, g.next).0;
      assert records + ([g.record] + more) == records + [g.record] + more;
    } else {
      assert records + [] == records;
    }
  }

  /** Writes records to a log that already holds `earlier`, by a writer opened at its end. */
  method WriteLog(crc: Crc, earlier: seq<Bytes>, file: Bytes, records: seq<Bytes>) returns (out: Bytes)
    requires file == LogOf(crc, earlier)
    ensures out == LogOf(crc, earlier + records)
  {
    hide Fragments, LogOf;
    var writer := new Writer(crc, file);
    assert earlier + records[..0] == earlier;
    for i := 0 to |records|
      invariant fresh(writer) && writer.Valid() && writer.crc == crc
      invariant writer.dest == LogOf(crc, earlier + records[..i])
    {
      AppendExtends(crc, earlier + records[..i], records[i]);
      assert earlier + records[..i] + [records[i]] == earlier + records[..i + 1];
      writer.AddRecord(records[i]);
    }
    assert records[..|records|] == records;
    out := writer.dest;
  }
}
