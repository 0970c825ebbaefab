/**
 Write batches: operations encoded behind a header that holds a sequence number and a count.
 */
module WriteBatches {
  import opened Keys
  import opened Coding

  const HEADER: nat := 12

  datatype Op = Put(key: Bytes, value: Bytes) | Delete(key: Bytes)

  ghost predicate OpOk(op: Op) {
    |op.key| < TWO32 && (op.Put? ==> |op.value| < TWO32)
  }

  function EncodeOp(op: Op): (b: Bytes)
    ensures |b| > 0
  {
    if op.Put? then [1] + (LengthPrefixed(op.key) + LengthPrefixed(op.value)) else [0] + LengthPrefixed(op.key)
  }

  function EncodeOps(ops: seq<Op>): Bytes {
    if ops == [] then [] else EncodeOps(ops[..|ops| - 1]) + EncodeOp(ops[|ops| - 1])
  }

  /** The count of a header has 32 bits and wraps around. */
  function CountOf(ops: seq<Op>): u32 {
    |ops| % TWO32
  }

  /** A batch of operations as bytes. */
  function RepOf(sequence: u64, ops: seq<Op>): Bytes {
    Fixed64(sequence) + Fixed32(CountOf(ops)) + EncodeOps(ops)
  }

  // Reading a batch

  datatype Parsed = Done(ops: seq<Op>) | Corrupt(ops: seq<Op>)

  /** The operation that the input begins with. */
  function GetOp(b: Bytes): (r: Read<Op>)
    requires b != []
    ensures r.Taken? ==> |r.rest| < |b|
  {
    if b[0] == 1 then
      var key := GetSlice(b[1..]);
      if key.Bad? then Bad else
      var value := GetSlice(key.rest);
      if value.Bad? then Bad else Taken(Put(key.value, value.value), value.rest)
    else if b[0] == 0 then
      var key := GetSlice(b[1..]);
      if key.Bad? then Bad else Taken(Delete(key.value), key.rest)
    else Bad
  }

  function ParseOps(b: Bytes): Parsed
    decreases |b|
  {
    if b == [] then Done([])
    else
      var op := GetOp(b);
      if op.Bad? then Corrupt([])
      else
        var rest := ParseOps(op.rest);
        if rest.Done? then Done([op.value] + rest.ops) else Corrupt([op.value] + rest.ops)
  }

  /** The operations handed to the handler, and whether the batch is well formed. */
  function Parse(rep: Bytes): Parsed {
    if |rep| < HEADER then Corrupt([])
    else
      var p := ParseOps(rep[HEADER..]);
      if p.Done? && |p.ops| != DecodeFixed32(rep[8..12]) then Corrupt(p.ops) else p
  }

  lemma FirstByte(kind: byte, body: Bytes, tail: Bytes)
    ensures ([kind] + body + tail)[0] == kind && ([kind] + body + tail)[1..] == body + tail
  {
  }

  lemma OpBack(op: Op, tail: Bytes)
    requires OpOk(op)
    ensures GetOp(EncodeOp(op) + tail) == Taken(op, tail)
  {
    hide LengthPrefixed, GetSlice;
    if op.Put? {
      var body := LengthPrefixed(op.key) + LengthPrefixed(op.value);
      FirstByte(1, body, tail);
      Peel(LengthPrefixed(op.key), LengthPrefixed(op.value), tail);
      SliceBack(op.key, LengthPrefixed(op.value) + tail);
      SliceBack(op.value, tail);
    } else {
      FirstByte(0, LengthPrefixed(op.key), tail);
      SliceBack(op.key, tail);
    }
  }

  lemma {:induction false} EncodeOpsFront(ops: seq<Op>)
    requires ops != []
    ensures EncodeOps(ops) == EncodeOp(ops[0]) + EncodeOps(ops[1..])
    decreases |ops|
  {
    hide EncodeOp;
    var n := |ops| - 1;
    if n == 0 {
      assert ops[..0] == [] && ops[1..] == [];
      assert EncodeOps([]) == [];
    } else {
      EncodeOpsFront(ops[..n]);
      assert ops[..n][1..] == ops[1..][..n - 1];
      assert ops[1..][n - 1] == ops[n];
    }
  }

  lemma ParseFirst(op: Op, rest: Bytes)
    requires OpOk(op)
    ensures ParseOps(EncodeOp(op) + rest)
         == match ParseOps(rest) case Done(ops) => Done([op] + ops) case Corrupt(ops) => Corrupt([op] + ops)
  {
    hide EncodeOp, GetOp, OpOk;
    OpBack(op, rest);
  }

  lemma {:induction false} OpsBack(ops: seq<Op>)
    requires forall op :: op in ops ==> OpOk(op)
    ensures ParseOps(EncodeOps(ops)) == Done(ops)
    decreases |ops|
  {
    if ops != [] {
      hide EncodeOp, OpOk, ParseOps;
      EncodeOpsFront(ops);
      hide EncodeOps;
      OpsBack(ops[1..]);
      ParseFirst(ops[0], EncodeOps(ops[1..]));
      assert ops == [ops[0]] + ops[1..];
    }
  }

  /** Reading back a batch gives its operations and its sequence number, as long as 32 bits hold the count. */
  lemma BatchRoundTrip(sequence: u64, ops: seq<Op>)
    requires forall op :: op in ops ==> OpOk(op)
    ensures Parse(RepOf(sequence, ops)) == if |ops| < TWO32 then Done(ops) else Corrupt(ops)
    ensures |RepOf(sequence, ops)| >= HEADER && DecodeFixed64(RepOf(sequence, ops)[..8]) == sequence
  {
    var count := CountOf(ops);
    assert count == |ops| <==> |ops| < TWO32;
    assert RepOf(sequence, ops) == Fixed64(sequence) + Fixed32(count) + EncodeOps(ops);
    hide CountOf, EncodeOps, ParseOps, Fixed64, Fixed32, DecodeFixed32, DecodeFixed64, RepOf;
    HeaderParts(Fixed64(sequence), Fixed32(count), EncodeOps(ops));
    OpsBack(ops);
    assert Fixed32(count) + [] == Fixed32(count) && Fixed64(sequence) + [] == Fixed64(sequence);
    Fixed32RoundTrip(count, []);
    Fixed64RoundTrip(sequence, []);
  }

  lemma HeaderParts(a: Bytes, b: Bytes, c: Bytes)
    requires |a| == 8 && |b| == 4
    ensures (a + b + c)[..8] == a && (a + b + c)[8..12] == b && (a + b + c)[12..] == c
  {
  }

  lemma {:induction false} EncodeOpsAppend(a: seq<Op>, b: seq<Op>)
    ensures EncodeOps(a + b) == EncodeOps(a) + EncodeOps(b)
    decreases |b|
  {
    hide EncodeOp;
    if b == [] {
      assert a + b == a;
    } else {
      assert (a + b)[..|a + b| - 1] == a + b[..|b| - 1];
      EncodeOpsAppend(a, b[..|b| - 1]);
    }
  }

  // Batches that are refused

  lemma OpCut(b: Bytes, op: Op)
    requires OpOk(op) && b < EncodeOp(op) && b != []
    ensures GetOp(b).Bad?
  {
    hide LengthPrefixed, GetSlice;
    assert b[0] == EncodeOp(op)[0] && b[1..] < EncodeOp(op)[1..];
    if op.Put? {
      SlicedCut(b[1..], op.key, LengthPrefixed(op.value));
      if GetSlice(b[1..]).Taken? {
        SliceCut(GetSlice(b[1..]).rest, op.value);
      }
    } else {
      SliceCut(b[1..], op.key);
    }
  }

  /** Of operations that are cut short, those before the cut are handed over and no others. */
  lemma {:induction false} OpsCut(b: Bytes, ops: seq<Op>)
    requires (forall op :: op in ops ==> OpOk(op)) && b < EncodeOps(ops)
    ensures ParseOps(b).ops < ops
    decreases |ops|
  {
    hide EncodeOp, OpOk, GetOp;
    if b != [] {
      EncodeOpsFront(ops);
      hide EncodeOps;
      var here := EncodeOp(ops[0]);
      CutWhere(b, here, EncodeOps(ops[1..]));
      if b < here {
        OpCut(b, ops[0]);
      } else {
        OpBack(ops[0], b[|here|..]);
        OpsCut(b[|here|..], ops[1..]);
      }
    }
  }

  /** A batch that is cut short is refused wherever the cut is, and only its first operations are handed over. */
  lemma BatchCut(sequence: u64, ops: seq<Op>, n: nat)
    requires (forall op :: op in ops ==> OpOk(op)) && n < |RepOf(sequence, ops)| && |ops| < TWO32
    ensures Parse(RepOf(sequence, ops)[..n]).Corrupt? && Parse(RepOf(sequence, ops)[..n]).ops <= ops
  {
    hide EncodeOps, ParseOps, Fixed64, Fixed32, DecodeFixed32;
    var rep := RepOf(sequence, ops);
    if n >= HEADER {
      HeaderParts(Fixed64(sequence), Fixed32(CountOf(ops)), EncodeOps(ops));
      assert rep[..n][HEADER..] == rep[HEADER..][..n - HEADER] && rep[..n][8..12] == rep[8..12];
      OpsCut(rep[..n][HEADER..], ops);
      assert Fixed32(CountOf(ops)) + [] == Fixed32(CountOf(ops));
      Fixed32RoundTrip(CountOf(ops), []);
    }
  }

  /** Bytes behind whole operations that begin with no known kind spoil the batch. */
  lemma {:induction false} UnknownKind(ops: seq<Op>, kind: byte, tail: Bytes)
    requires (forall op :: op in ops ==> OpOk(op)) && kind > 1
    ensures ParseOps(EncodeOps(ops) + ([kind] + tail)) == Corrupt(ops)
    decreases |ops|
  {
    hide EncodeOp, OpOk, ParseOps, EncodeOps;
    var more := [kind] + tail;
    if ops == [] {
      NoKind(kind, tail);
      NoOps();
      assert EncodeOps(ops) + more == more;
    } else {
      EncodeOpsFront(ops);
      var rest := EncodeOps(ops[1..]) + more;
      assert EncodeOps(ops) + more == EncodeOp(ops[0]) + rest;
      UnknownKind(ops[1..], kind, tail);
      ParseFirst(ops[0], rest);
      assert ops == [ops[0]] + ops[1..];
    }
  }

  lemma NoKind(kind: byte, tail: Bytes)
    requires kind > 1
    ensures ParseOps([kind] + tail) == Corrupt([])
  {
    hide GetSlice;
    assert ([kind] + tail)[0] == kind;
  }

  /** The entries that operations become, with consecutive sequence numbers. */
  function Entries(first: nat, ops: seq<Op>): (es: seq<Entry>)
    ensures |es| == |ops|
  {
    seq(|ops|, i requires 0 <= i < |ops| => EntryFor(first + i, ops[i]))
  }

  function EntryFor(sequence: nat, op: Op): Entry {
    if op.Put? then Entry(IKey(op.key, sequence, Value), op.value) else Entry(IKey(op.key, sequence, Deletion), [])
  }

  class WriteBatch {
    var rep: Bytes
    ghost var sequence: u64
    ghost var ops: seq<Op>

    ghost predicate Valid()
      reads this
    {
      rep == RepOf(sequence, ops)
    }

    constructor ()
      ensures Valid() && ops == [] && sequence == 0
    {
      rep := ZEROS;
      sequence, ops := 0, [];
      new;
      ZerosAreEmpty();
    }

    method Clear()
      modifies this
      ensures Valid() && ops == [] && sequence == 0
    {
      rep := ZEROS;
      sequence, ops := 0, [];
      ZerosAreEmpty();
    }

    function Count(): (n: u32)
      requires Valid()
      reads this
      ensures n == |ops| % TWO32
    {
      hide EncodeOps, Fixed64, Fixed32, DecodeFixed32;
      HeaderParts(Fixed64(sequence), Fixed32(CountOf(ops)), EncodeOps(ops));
      assert Fixed32(CountOf(ops)) + [] == Fixed32(CountOf(ops));
      Fixed32RoundTrip(CountOf(ops), []);
      DecodeFixed32(rep[8..12])
    }

    function Sequence(): (n: u64)
      requires Valid()
      reads this
      ensures n == sequence
    {
      hide EncodeOps, Fixed64, Fixed32, DecodeFixed64;
      HeaderParts(Fixed64(sequence), Fixed32(CountOf(ops)), EncodeOps(ops));
      assert Fixed64(sequence) + [] == Fixed64(sequence);
      Fixed64RoundTrip(sequence, []);
      DecodeFixed64(rep[..8])
    }

    method SetSequence(s: u64)
      requires Valid()
      modifies this
      ensures Valid() && sequence == s && ops == old(ops)
    {
      hide EncodeOps, Fixed64, Fixed32;
      HeaderParts(Fixed64(sequence), Fixed32(CountOf(ops)), EncodeOps(ops));
      assert rep[8..] == Fixed32(CountOf(ops)) + EncodeOps(ops);
      rep := Fixed64(s) + rep[8..];
      sequence := s;
      assert rep == RepOf(s, ops);
    }

    /** Adds operations behind the ones there: a put, a deletion, or those of another batch. */
    ghost method Grown(more: seq<Op>, body: Bytes, was: Bytes)
      requires was == RepOf(sequence, ops) && body == EncodeOps(more)
      modifies this`ops
      ensures ops == old(ops) + more && RepOf(sequence, ops) == (was[..8] + Fixed32(CountOf(ops)) + was[12..]) + body
    {
      hide EncodeOps, Fixed64, Fixed32;
      HeaderParts(Fixed64(sequence), Fixed32(CountOf(ops)), EncodeOps(ops));
      EncodeOpsAppend(ops, more);
      ops := ops + more;
    }

    method Put(key: Bytes, value: Bytes)
      requires Valid()
      modifies this
      ensures Valid() && sequence == old(sequence) && ops == old(ops) + [Op.Put(key, value)]
    {
      hide EncodeOps, Fixed64, Fixed32, RepOf;
      OneOp(Op.Put(key, value));
      var count := Count();
      HeaderLength(sequence, ops);
      ghost var was := rep;
      rep := rep[..8] + Fixed32((count + 1) % TWO32) + rep[12..];
      rep := rep + ([1] + (LengthPrefixed(key) + LengthPrefixed(value)));
      Grown([Op.Put(key, value)], [1] + (LengthPrefixed(key) + LengthPrefixed(value)), was);
    }

    method Delete(key: Bytes)
      requires Valid()
      modifies this
      ensures Valid() && sequence == old(sequence) && ops == old(ops) + [Op.Delete(key)]
    {
      hide EncodeOps, Fixed64, Fixed32, RepOf;
      OneOp(Op.Delete(key));
      var count := Count();
      HeaderLength(sequence, ops);
      ghost var was := rep;
      rep := rep[..8] + Fixed32((count + 1) % TWO32) + rep[12..];
      rep := rep + ([0] + LengthPrefixed(key));
      Grown([Op.Delete(key)], [0] + LengthPrefixed(key), was);
    }

    /** The other batch's operations, without its header. */
    method Append(source: WriteBatch)
      requires Valid() && source.Valid()
      modifies this
      ensures Valid() && sequence == old(sequence) && ops == old(ops) + old(source.ops)
    {
      hide EncodeOps, Fixed64, Fixed32, RepOf;
      var count := (Count() + source.Count()) % TWO32;
      HeaderLength(sequence, ops);
      HeaderLength(source.sequence, source.ops);
      CountsAdd(ops, source.ops);
      ghost var was := rep;
      ghost var more, added := source.ops, source.rep[HEADER..];
      rep := rep[..8] + Fixed32(count) + rep[12..];
      SameBody(was, count);
      rep := rep + source.rep[HEADER..];
      Grown(more, added, was);
    }
  }

  lemma CountsAdd(a: seq<Op>, b: seq<Op>)
    ensures CountOf(a + b) == (CountOf(a) + CountOf(b)) % TWO32
  {
  }

  /** A new count leaves the operations as they are. */
  lemma SameBody(rep: Bytes, count: u32)
    requires |rep| >= HEADER
    ensures (rep[..8] + Fixed32(count) + rep[12..])[HEADER..] == rep[HEADER..]
  {
    HeaderParts(rep[..8], Fixed32(count), rep[12..]);
  }

  /** What has been handed over so far, and then what the rest of the input gives. */
  function Behind(ops: seq<Op>, rest: Parsed): Parsed {
    if rest.Done? then Done(ops + rest.ops) else Corrupt(ops + rest.ops)
  }

  ghost predicate Inserted(mem: seq<Entry>, first: nat, ops: seq<Op>, mem': seq<Entry>) {
    mem' == mem + Entries(first, ops)
  }

  /** Inserts the operations of any bytes into a memtable, from the sequence number in the header on. */
  method InsertInto(rep: Bytes, mem: seq<Entry>) returns (mem': seq<Entry>, ok: bool)
    ensures ok <==> Parse(rep).Done?
    ensures |rep| >= HEADER ==> mem' == mem + Entries(DecodeFixed64(rep[..8]), Parse(rep).ops)
    ensures |rep| < HEADER ==> mem' == mem
  {
    if |rep| < HEADER {
      return mem, false;
    }
    hide ParseOps, Entries, DecodeFixed64, DecodeFixed32;
    var found;
    mem', found, ok := InsertOps(rep[HEADER..], DecodeFixed64(rep[..8]), mem);
    ok := ok && found == DecodeFixed32(rep[8..12]);
  }

  method InsertOps(start: Bytes, first: nat, mem: seq<Entry>) returns (mem': seq<Entry>, found: nat, ok: bool)
    ensures ok <==> ParseOps(start).Done?
    ensures Inserted(mem, first, ParseOps(start).ops, mem') && (ok ==> found == |ParseOps(start).ops|)
  {
    hide ParseOps, GetOp, Inserted;
    var input, next := start, first;
    ghost var ops: seq<Op> := [];
    NothingYet(mem, first, ParseOps(input));
    mem', found := mem, 0;
    while input != []
      invariant next == first + found && found == |ops| && Behind(ops, ParseOps(input)) == ParseOps(start)
      invariant Inserted(mem, first, ops, mem')
      decreases |input|
    {
      NextOp(ops, input);
      var op := GetOp(input);
      if op.Bad? {
        return mem', found, false;
      }
      OneMore(mem, first, ops, op.value, mem');
      mem' := mem' + [EntryFor(next, op.value)];
      ops := ops + [op.value];
      next, found, input := next + 1, found + 1, op.rest;
    }
    NoOps();
    assert ops + [] == ops;
    ok := true;
  }

  lemma NothingYet(mem: seq<Entry>, first: nat, p: Parsed)
    ensures Inserted(mem, first, [], mem) && Behind([], p) == p
  {
    assert [] + p.ops == p.ops;
  }

  lemma OneMore(mem: seq<Entry>, first: nat, ops: seq<Op>, op: Op, mem': seq<Entry>)
    requires Inserted(mem, first, ops, mem')
    ensures Inserted(mem, first, ops + [op], mem' + [EntryFor(first + |ops|, op)])
  {
    assert Entries(first, ops + [op]) == Entries(first, ops) + [EntryFor(first + |ops|, op)];
  }

  const ZEROS: Bytes := [0, 0, 0, 0, 0, 0, 0, 0, 0, 0, 0, 0]

  lemma ZerosAreEmpty()
    ensures ZEROS == RepOf(0, [])
  {
  }

  lemma OneOp(op: Op)
    ensures EncodeOps([op]) == EncodeOp(op)
  {
    assert [op][..0] == [];
    assert EncodeOps([]) == [];
  }

  lemma HeaderLength(sequence: u64, ops: seq<Op>)
    ensures |RepOf(sequence, ops)| >= HEADER && RepOf(sequence, ops)[HEADER..] == EncodeOps(ops)
  {
    hide EncodeOps, Fixed64, Fixed32;
    HeaderParts(Fixed64(sequence), Fixed32(CountOf(ops)), EncodeOps(ops));
  }

  lemma NextOp(ops: seq<Op>, input: Bytes)
    requires input != []
    ensures var op := GetOp(input);
            && (op.Bad? ==> Behind(ops, ParseOps(input)) == Corrupt(ops))
            && (op.Taken? ==> Behind(ops, ParseOps(input)) == Behind(ops + [op.value], ParseOps(op.rest)))
  {
    hide GetOp;
    var op := GetOp(input);
    assert ops + [] == ops;
    if op.Taken? {
      assert ops + ([op.value] + ParseOps(op.rest).ops) == ops + [op.value] + ParseOps(op.rest).ops;
    }
  }

  lemma NoOps()
    ensures ParseOps([]) == Done([]) && EncodeOps([]) == []
  {
  }
}
