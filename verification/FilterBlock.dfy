/**
 Filter blocks: one filter for every 2 KB of table, found through an array of offsets.
 */
module FilterBlock {
  import opened Keys
  import opened Coding
  import opened Bloom
  import B = Block

  const BASE_LG: byte := 11
  const BASE: nat := 2048

  /** The keys that one filter was made from, and its bytes. */
  datatype Filter = Filter(keys: seq<Bytes>, bytes: Bytes)

  ghost predicate FilterOk(hash: Hash, f: Filter) {
    if f.keys == [] then f.bytes == [] else forall i :: 0 <= i < |f.keys| ==> MayMatch(hash, f.keys[i], f.bytes)
  }

  function Concat(fs: seq<Filter>): Bytes {
    if fs == [] then [] else Concat(fs[..|fs| - 1]) + fs[|fs| - 1].bytes
  }

  /** Where each filter begins. */
  function Starts(fs: seq<Filter>): (o: seq<nat>)
    ensures |o| == |fs| && forall i :: 0 <= i < |fs| ==> o[i] == |Concat(fs[..i])|
  {
    seq(|fs|, i requires 0 <= i < |fs| => |Concat(fs[..i])|)
  }

  function Flat(keys: seq<Bytes>): Bytes {
    if keys == [] then [] else Flat(keys[..|keys| - 1]) + keys[|keys| - 1]
  }

  function KeyStarts(keys: seq<Bytes>): (o: seq<nat>)
    ensures |o| == |keys| && forall i :: 0 <= i < |keys| ==> o[i] == |Flat(keys[..i])|
  {
    seq(|keys|, i requires 0 <= i < |keys| => |Flat(keys[..i])|)
  }

  lemma {:induction false} ConcatPrefix(fs: seq<Filter>, i: nat)
    requires i <= |fs|
    ensures Concat(fs[..i]) <= Concat(fs)
    decreases |fs|
  {
    if i < |fs| {
      var front := fs[..|fs| - 1];
      ConcatPrefix(front, i);
      assert front[..i] == fs[..i];
    } else {
      assert fs[..i] == fs;
    }
  }

  /** Filter `i` lies between its start and the next. */
  lemma FilterAt(fs: seq<Filter>, i: nat)
    requires i < |fs|
    ensures var from, to := |Concat(fs[..i])|, |Concat(fs[..i + 1])|;
            from <= to <= |Concat(fs)| && Concat(fs)[from..to] == fs[i].bytes
  {
    ConcatPrefix(fs, i + 1);
    assert fs[..i + 1][..i] == fs[..i];
    var up := Concat(fs[..i + 1]);
    assert up == Concat(fs[..i]) + fs[i].bytes;
    hide Concat;
    assert Concat(fs)[|Concat(fs[..i])|..|up|] == up[|Concat(fs[..i])|..];
  }

  lemma {:induction false} FlatPrefix(keys: seq<Bytes>, i: nat)
    requires i <= |keys|
    ensures Flat(keys[..i]) <= Flat(keys)
    decreases |keys|
  {
    if i < |keys| {
      var front := keys[..|keys| - 1];
      FlatPrefix(front, i);
      assert front[..i] == keys[..i];
    } else {
      assert keys[..i] == keys;
    }
  }

  lemma KeyAt(keys: seq<Bytes>, i: nat)
    requires i < |keys|
    ensures var from, to := |Flat(keys[..i])|, |Flat(keys[..i + 1])|;
            from <= to <= |Flat(keys)| && Flat(keys)[from..to] == keys[i]
  {
    FlatPrefix(keys, i + 1);
    assert keys[..i + 1][..i] == keys[..i];
    var up := Flat(keys[..i + 1]);
    assert up == Flat(keys[..i]) + keys[i];
    hide Flat;
    assert Flat(keys)[|Flat(keys[..i])|..|up|] == up[|Flat(keys[..i])|..];
  }

  /** The finished block. */
  function BlockOf(fs: seq<Filter>): Bytes
    requires Fits(fs)
  {
    Concat(fs) + (B.FixedAll(Words(fs)) + [BASE_LG])
  }

  /** The offset array, with the position of the array itself behind it. */
  function Words(fs: seq<Filter>): (o: seq<nat>)
    ensures |o| == |fs| + 1
  {
    Starts(fs) + [|Concat(fs)|]
  }

  ghost predicate Fits(fs: seq<Filter>) {
    |Concat(fs)| < TWO32 && forall j :: 0 <= j < |Words(fs)| ==> Words(fs)[j] < TWO32
  }

  // Reading

  datatype Reader = Reader(arrayOffset: nat, num: nat, baseLg: nat)

  /** Malformed contents leave a reader without filters. */
  function Open(contents: Bytes): (r: Reader)
    ensures r.num > 0 ==> r.arrayOffset + 4 * r.num + 5 <= |contents|
  {
    var n := |contents|;
    if n < 5 then Reader(0, 0, 0)
    else
      var lastWord := Word(contents, n - 5);
      if lastWord > n - 5 then Reader(0, 0, contents[n - 1])
      else Reader(lastWord, (n - 5 - lastWord) / 4, contents[n - 1])
  }

  /** The filter that covers a block: its offset shifted right. */
  function Index(blockOffset: nat, baseLg: nat): nat {
    if baseLg == 0 then blockOffset else Index(blockOffset / 2, baseLg - 1)
  }

  function Word(contents: Bytes, at: nat): nat
    requires at + 4 <= |contents|
  {
    DecodeFixed32(contents[at..at + 4])
  }

  ghost predicate BlockMayMatch(hash: Hash, contents: Bytes, blockOffset: nat, key: Bytes) {
    var r := Open(contents);
    var index := Index(blockOffset, r.baseLg);
    if index < r.num then
      FilterMayMatch(hash, contents, key, Word(contents, r.arrayOffset + 4 * index),
                     Word(contents, r.arrayOffset + 4 * index + 4), r.arrayOffset)
    else true
  }

  /** The answer of the filter between two offsets; an error counts as a match, and an empty filter matches nothing. */
  ghost predicate FilterMayMatch(hash: Hash, contents: Bytes, key: Bytes, start: nat, limit: nat, arrayOffset: nat)
    requires arrayOffset <= |contents|
  {
    if start <= limit <= arrayOffset then MayMatch(hash, key, contents[start..limit]) else start != limit
  }

  method BlockKeyMayMatch(hash: Hash, contents: Bytes, blockOffset: nat, key: Bytes) returns (may: bool)
    ensures may <==> BlockMayMatch(hash, contents, blockOffset, key)
  {
    hide Word, MayMatch, Index, Open;
    var r := Open(contents);
    var index := Index(blockOffset, r.baseLg);
    if index < r.num {
      var start, limit := Word(contents, r.arrayOffset + 4 * index), Word(contents, r.arrayOffset + 4 * index + 4);
      if start <= limit <= r.arrayOffset {
        may := KeyMayMatch(hash, key, contents[start..limit]);
        return;
      } else if start == limit {
        return false;
      }
    }
    return true;
  }

  lemma OpenBack(fs: seq<Filter>)
    requires Fits(fs)
    ensures Open(BlockOf(fs)) == Reader(|Concat(fs)|, |fs|, BASE_LG)
  {
    hide Concat, Words, Word, Fits, BlockOf, B.FixedAll;
    BlockLength(fs);
    WordAt(fs, |fs|);
    LastWord(fs);
  }

  lemma LastWord(fs: seq<Filter>)
    ensures Words(fs)[|fs|] == |Concat(fs)|
  {
  }

  lemma BlockLength(fs: seq<Filter>)
    requires Fits(fs)
    ensures |BlockOf(fs)| == |Concat(fs)| + 4 * |fs| + 5 && BlockOf(fs)[|BlockOf(fs)| - 1] == BASE_LG
  {
    hide Concat, Words, B.FixedAll;
  }

  /** The word of the offset array at position `j`. */
  lemma WordAt(fs: seq<Filter>, j: nat)
    requires Fits(fs) && j <= |fs|
    ensures var at := |Concat(fs)| + 4 * j;
            at + 4 <= |BlockOf(fs)| && Word(BlockOf(fs), at) == Words(fs)[j]
  {
    hide Concat, Words, B.FixedAll, DecodeFixed32;
    B.TrailerSlice(Concat(fs), Words(fs), [BASE_LG], j);
  }

  lemma KeyMatches(hash: Hash, f: Filter, k: nat)
    requires FilterOk(hash, f) && k < |f.keys|
    ensures MayMatch(hash, f.keys[k], f.bytes)
  {
  }

  /** A key in filter `i` matches at every block offset in that filter's 2 KB. */
  lemma StoredKeyMatches(hash: Hash, fs: seq<Filter>, i: nat, k: nat, blockOffset: nat)
    requires Fits(fs) && i < |fs| && FilterOk(hash, fs[i]) && k < |fs[i].keys| && blockOffset / BASE == i
    ensures BlockMayMatch(hash, BlockOf(fs), blockOffset, fs[i].keys[k])
  {
    hide FilterOk, Concat, StartOf, Words, Word, Fits, BlockOf, MayMatch, Open, Index;
    KeyMatches(hash, fs[i], k);
    IndexIsBucket(blockOffset);
    SliceOfFilter(fs, i);
    assert FilterMayMatch(hash, BlockOf(fs), fs[i].keys[k], StartOf(fs, i), StartOf(fs, i + 1), |Concat(fs)|);
    hide FilterMayMatch;
    OpenBack(fs);
    NextWord(fs, i);
    WordAt(fs, i);
    WordAt(fs, i + 1);
  }

  function StartOf(fs: seq<Filter>, i: nat): nat
    requires i <= |fs|
  {
    |Concat(fs[..i])|
  }

  lemma SliceOfFilter(fs: seq<Filter>, i: nat)
    requires Fits(fs) && i < |fs|
    ensures var from, to := StartOf(fs, i), StartOf(fs, i + 1);
            from <= to <= |Concat(fs)| <= |BlockOf(fs)| && BlockOf(fs)[from..to] == fs[i].bytes
  {
    hide Concat, Words, B.FixedAll;
    FilterAt(fs, i);
    SliceFront(Concat(fs), B.FixedAll(Words(fs)) + [BASE_LG], |Concat(fs[..i])|, |Concat(fs[..i + 1])|);
  }

  lemma SliceFront(a: Bytes, b: Bytes, from: nat, to: nat)
    requires from <= to <= |a|
    ensures (a + b)[from..to] == a[from..to]
  {
  }

  lemma IndexIsBucket(blockOffset: nat)
    ensures Index(blockOffset, BASE_LG) == blockOffset / BASE
  {
    Shift3(blockOffset, 11);
    Shift3(blockOffset / 8, 8);
    Shift3(blockOffset / 64, 5);
    Shift1(blockOffset / 512, 2);
    Shift1(blockOffset / 1024, 1);
  }

  lemma Shift1(o: nat, n: nat)
    requires n > 0
    ensures Index(o, n) == Index(o / 2, n - 1)
  {
  }

  lemma Shift3(o: nat, n: nat)
    requires n >= 3
    ensures Index(o, n) == Index(o / 8, n - 3)
  {
    Shift1(o, n);
    Shift1(o / 2, n - 1);
    Shift1(o / 4, n - 2);
  }

  lemma NextWord(fs: seq<Filter>, i: nat)
    requires i < |fs|
    ensures Words(fs)[i] == StartOf(fs, i) && Words(fs)[i + 1] == StartOf(fs, i + 1)
  {
    assert i + 1 == |fs| ==> fs[..i + 1] == fs;
  }

  // Building

  class FilterBlockBuilder {
    const hash: Hash
    const bitsPerKey: nat
    const probes: byte
    var keys: Bytes            // flattened keys of the filter being collected
    var start: seq<nat>        // where each of them begins
    var result: Bytes
    var filterOffsets: seq<nat>
    ghost var pending: seq<Bytes>
    ghost var filters: seq<Filter>
    ghost var at: nat                    // the offset given to the last StartBlock
    ghost var added: seq<(nat, Bytes)>   // every key added, with the offset of its block

    constructor (hash: Hash, bitsPerKey: nat, probes: byte)
      requires 1 <= probes <= 30
      ensures Valid() && added == [] && at == 0 && filters == [] && this.hash == hash
    {
      this.hash, this.bitsPerKey, this.probes := hash, bitsPerKey, probes;
      keys, start, result, filterOffsets := [], [], [], [];
      pending, filters, at, added := [], [], 0, [];
    }

    ghost predicate Valid()
      reads this
    {
      && 1 <= probes <= 30 && keys == Flat(pending) && start == KeyStarts(pending)
      && result == Concat(filters) && filterOffsets == Starts(filters) && at / BASE == |filters|
      && (forall i :: 0 <= i < |filters| ==> FilterOk(hash, filters[i]))
      && (forall i :: 0 <= i < |added| ==> Placed(added[i]))
    }

    /** A key is in the filter of its block's 2 KB, or waits to be put there. */
    ghost predicate Placed(a: (nat, Bytes))
      reads this
    {
      var i := a.0 / BASE;
      (i < |filters| && a.1 in filters[i].keys) || (i == |filters| && a.1 in pending)
    }

    method AddKey(key: Bytes)
      requires Valid()
      modifies this
      ensures Valid() && added == old(added) + [(at, key)] && at == old(at)
    {
      KeySnoc(pending, key);
      start := start + [|keys|];
      keys := keys + key;
      pending := pending + [key];
      added := added + [(at, key)];
    }

    method GenerateFilter()
      requires 1 <= probes <= 30 && keys == Flat(pending) && start == KeyStarts(pending)
      requires result == Concat(filters) && filterOffsets == Starts(filters)
      requires forall i :: 0 <= i < |filters| ==> FilterOk(hash, filters[i])
      modifies this
      ensures keys == Flat(pending) && start == KeyStarts(pending) && pending == []
      ensures result == Concat(filters) && filterOffsets == Starts(filters)
      ensures forall i :: 0 <= i < |filters| ==> FilterOk(hash, filters[i])
      ensures |filters| == |old(filters)| + 1 && filters[..|old(filters)|] == old(filters)
      ensures filters[|old(filters)|].keys == old(pending)
      ensures added == old(added) && at == old(at)
    {
      hide MayMatch, Concat, Starts, Flat, KeyStarts;
      NoKeys();
      var n := |start|;
      filterOffsets := filterOffsets + [|result|];
      if n == 0 {
        FilterSnoc(filters, Filter(pending, []));
        filters := filters + [Filter(pending, [])];
        return;
      }
      var tmp := SplitKeys(keys, start, pending);
      var out, a := CreateFilter(hash, bitsPerKey, probes, tmp, result);
      forall i | 0 <= i < |tmp|
        ensures MayMatch(hash, tmp[i], a + [probes])
      {
        NoFalseNegatives(hash, tmp, a, probes, i);
      }
      FilterSnoc(filters, Filter(pending, a + [probes]));
      result := out;
      filters := filters + [Filter(pending, a + [probes])];
      keys, start := [], [];
      pending := [];
    }

    /** Blocks are started at ascending offsets. */
    lemma CanStart(blockOffset: nat)
      requires Valid() && blockOffset >= at
      ensures blockOffset / BASE >= |filters|
    {
      hide FilterOk, Concat, Starts, Flat, KeyStarts;
    }

    method StartBlock(blockOffset: nat)
      requires Valid() && blockOffset / BASE >= |filters|
      modifies this
      ensures Valid() && added == old(added) && at == blockOffset
    {
      hide FilterOk, Concat, Starts, Flat, KeyStarts;
      var filterIndex := blockOffset / BASE;
      while filterIndex > |filterOffsets|
        invariant 1 <= probes <= 30 && keys == Flat(pending) && start == KeyStarts(pending)
        invariant result == Concat(filters) && filterOffsets == Starts(filters) && |filters| <= filterIndex
        invariant forall i :: 0 <= i < |filters| ==> FilterOk(hash, filters[i])
        invariant added == old(added) && forall i :: 0 <= i < |added| ==> Placed(added[i])
        decreases filterIndex - |filterOffsets|
      {
        ghost var before, waiting := filters, pending;
        GenerateFilter();
        forall i | 0 <= i < |added|
          ensures Placed(added[i])
        {
          StillPlaced(added[i], before, waiting, filters);
        }
      }
      at := blockOffset;
    }

    /** Finishes the block. Offsets are stored in 32 bits; when they fit, no added key is hidden. */
    method Finish() returns (block: Bytes)
      requires Valid()
      modifies this
      ensures added == old(added)
      ensures Fits(filters) ==> block == BlockOf(filters)
      ensures Fits(filters) ==> forall i :: 0 <= i < |added| ==> BlockMayMatch(hash, block, added[i].0, added[i].1)
    {
      hide FilterOk, Concat, Starts, Flat, KeyStarts, BlockMayMatch, B.Low, Words, Fixed32, Fits, B.FixedAll;
      if start != [] {
        ghost var before, waiting := filters, pending;
        GenerateFilter();
        forall i | 0 <= i < |added|
          ensures Placed(added[i])
        {
          StillPlaced(added[i], before, waiting, filters);
        }
      }
      assert pending == [];
      var words := B.FixedRestarts(B.Low(filterOffsets));
      var last := Fixed32(|result| % TWO32);
      if Fits(filters) {
        AllWords(filters);
      }
      block := result + (words + last + [BASE_LG]);
      result := block;
      if Fits(filters) {
        forall i | 0 <= i < |added|
          ensures BlockMayMatch(hash, block, added[i].0, added[i].1)
        {
          var a := added[i];
          assert Placed(a);
          var k :| 0 <= k < |filters[a.0 / BASE].keys| && filters[a.0 / BASE].keys[k] == a.1;
          StoredKeyMatches(hash, filters, a.0 / BASE, k, a.0);
        }
      }
    }
  }

  /** The keys cut out of the flattened ones. */
  method SplitKeys(keys: Bytes, start: seq<nat>, ghost pending: seq<Bytes>) returns (tmp: seq<Bytes>)
    requires keys == Flat(pending) && start == KeyStarts(pending)
    ensures tmp == pending
  {
    hide Flat, KeyStarts;
    var bounds := start + [|keys|];
    tmp := [];
    for i := 0 to |start|
      invariant tmp == pending[..i]
    {
      KeyAt(pending, i);
      NextBound(pending, i);
      tmp := tmp + [keys[bounds[i]..bounds[i + 1]]];
    }
  }

  lemma FixedSnoc(o: seq<nat>, w: nat)
    requires w < TWO32 && forall j :: 0 <= j < |o| ==> o[j] < TWO32
    ensures B.FixedAll(o + [w]) == B.FixedAll(o) + Fixed32(w)
  {
    hide Fixed32;
    assert (o + [w])[..|o|] == o;
  }

  lemma AllWords(fs: seq<Filter>)
    requires Fits(fs)
    ensures B.Low(Starts(fs)) == Starts(fs) && |Concat(fs)| < TWO32
    ensures B.FixedAll(B.Low(Starts(fs))) + Fixed32(|Concat(fs)|) == B.FixedAll(Words(fs))
  {
    hide Fixed32, Concat, Starts, B.FixedAll;
    forall j | 0 <= j < |fs|
      ensures Starts(fs)[j] < TWO32
    {
      assert Words(fs)[j] < TWO32;
    }
    assert B.Low(Starts(fs)) == Starts(fs);
    FixedSnoc(Starts(fs), |Concat(fs)|);
  }

  lemma NoKeys()
    ensures Flat([]) == [] && KeyStarts([]) == []
  {
  }

  lemma StillPlaced(a: (nat, Bytes), before: seq<Filter>, waiting: seq<Bytes>, fs: seq<Filter>)
    requires |fs| == |before| + 1 && fs[..|before|] == before && fs[|before|].keys == waiting
    requires var i := a.0 / BASE; (i < |before| && a.1 in before[i].keys) || (i == |before| && a.1 in waiting)
    ensures a.0 / BASE < |fs| && a.1 in fs[a.0 / BASE].keys
  {
    var i := a.0 / BASE;
    assert i < |before| ==> fs[i] == fs[..|before|][i];
  }

  lemma KeySnoc(keys: seq<Bytes>, key: Bytes)
    ensures Flat(keys + [key]) == Flat(keys) + key && KeyStarts(keys + [key]) == KeyStarts(keys) + [|Flat(keys)|]
  {
    assert (keys + [key])[..|keys|] == keys;
    hide Flat;
    assert forall i :: 0 <= i < |keys| ==> (keys + [key])[..i] == keys[..i];
  }

  lemma NextBound(keys: seq<Bytes>, i: nat)
    requires i < |keys|
    ensures var bounds := KeyStarts(keys) + [|Flat(keys)|];
            bounds[i] == |Flat(keys[..i])| && bounds[i + 1] == |Flat(keys[..i + 1])|
  {
    assert i + 1 == |keys| ==> keys[..i + 1] == keys;
  }

  lemma FilterSnoc(fs: seq<Filter>, f: Filter)
    ensures Concat(fs + [f]) == Concat(fs) + f.bytes && Starts(fs + [f]) == Starts(fs) + [|Concat(fs)|]
  {
    assert (fs + [f])[..|fs|] == fs;
    hide Concat;
    assert forall i :: 0 <= i < |fs| ==> (fs + [f])[..i] == fs[..i];
  }
}
