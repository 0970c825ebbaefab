/**
 Table files as bytes: the builder that writes data blocks, filter, metaindex, index and footer, and
 the lookup that reads them. What the lookup finds in the bytes of a built table is what a search of
 the entries that were added finds.
 */
module TableFiles {
  import opened Keys
  import opened Drops
  import opened Versions
  import opened Coding
  import opened InternalKeys
  import opened TableFormat
  import opened Table
  import opened Bloom
  import B = Block
  import T = FilterBlock

  /** A filter policy: its name and hash function, and how large it makes filters. */
  datatype Policy = Policy(name: Bytes, hash: Hash, bitsPerKey: nat, probes: byte)

  /** The policy for internal keys looks at their user keys. */
  function InternalHash(hash: Hash): Hash {
    (k: Bytes) => hash(UserOf(k))
  }

  const PREFIX: Bytes := [102, 105, 108, 116, 101, 114, 46]  // "filter."

  function KVs(es: seq<Entry>): (kvs: seq<B.KV>)
    ensures |kvs| == |es|
  {
    seq(|es|, i requires 0 <= i < |es| => B.KV(KeyBytes(es[i].key), es[i].value))
  }

  function IndexKVs(index: seq<IKey>, handles: seq<Handle>): (kvs: seq<B.KV>)
    requires |index| <= |handles|
    ensures |kvs| == |index|
  {
    seq(|index|, i requires 0 <= i < |index| => B.KV(KeyBytes(index[i]), HandleBytes(handles[i])))
  }

  function MetaKVs(policy: Option<Policy>, filter: Handle): seq<B.KV> {
    if policy.None? then [] else [B.KV(PREFIX + policy.value.name, HandleBytes(filter))]
  }

  /** The blocks of a table, the keys of its index and where the blocks lie. */
  datatype Layout = Layout(blocks: seq<seq<Entry>>, index: seq<IKey>, handles: seq<Handle>)

  /** Each block can be read back, if its sizes fit. */
  ghost predicate Written(c: Codec, interval: nat, file: Bytes, blocks: seq<seq<Entry>>, handles: seq<Handle>)
    requires interval > 0
  {
    && |handles| == |blocks|
    && (forall h :: h in handles ==> HandleOk(h))
    && (|file| < TWO64 ==> forall i :: 0 <= i < |blocks| && B.Fits(KVs(blocks[i]), interval) ==>
                                         Leads(c, file, handles[i], B.BlockOf(KVs(blocks[i]), interval)))
  }

  /** The filter knows every key of the blocks, and of the block under construction, by the block's offset. */
  ghost predicate Placed(blocks: seq<seq<Entry>>, handles: seq<Handle>, data: seq<Entry>, at: nat,
                         added: seq<(nat, Bytes)>)
    requires |handles| == |blocks|
  {
    && (forall i, e :: 0 <= i < |blocks| && e in blocks[i] ==> (handles[i].offset, KeyBytes(e.key)) in added)
    && (forall e :: e in data ==> (at, KeyBytes(e.key)) in added)
  }

  ghost predicate KeysOk(es: seq<Entry>) {
    forall e :: e in es ==> KeyOk(e.key)
  }

  /** A finished table: its layout, its filter and where its parts lie. */
  datatype Stored = Stored(layout: Layout, filter: Bytes, filterHandle: Handle, meta: Handle, index: Handle)

  /** The filter lets every key of every block pass. */
  ghost predicate FilterPasses(hash: Hash, filter: Bytes, blocks: seq<seq<Entry>>, handles: seq<Handle>)
    requires |handles| == |blocks|
  {
    forall i, e :: 0 <= i < |blocks| && e in blocks[i] ==>
                     T.BlockMayMatch(InternalHash(hash), filter, handles[i].offset, KeyBytes(e.key))
  }

  /** The index and the keys it stands for. */
  ghost predicate LayoutOk(l: Layout) {
    && Indexed(l.blocks, l.index) && |l.index| == |l.blocks| == |l.handles| && Sorted(Flatten(l.blocks))
    && KeysOk(Flatten(l.blocks)) && (forall k :: k in l.index ==> KeyOk(k))
    && (forall h :: h in l.handles ==> HandleOk(h))
  }

  /** The file holds the table. */
  ghost predicate IsTable(c: Codec, interval: nat, policy: Option<Policy>, file: Bytes, t: Stored)
    requires interval > 0
  {
    var l := t.layout;
    && LayoutOk(l)
    && (forall i :: 0 <= i < |l.blocks| ==>
                      B.Fits(KVs(l.blocks[i]), interval) &&
                      Leads(c, file, l.handles[i], B.BlockOf(KVs(l.blocks[i]), interval)))
    && B.Fits(IndexKVs(l.index, l.handles), 1)
    && Leads(c, file, t.index, B.BlockOf(IndexKVs(l.index, l.handles), 1))
    && HandleOk(t.filterHandle) && B.Fits(MetaKVs(policy, t.filterHandle), interval)
    && Leads(c, file, t.meta, B.BlockOf(MetaKVs(policy, t.filterHandle), interval))
    && (policy.Some? ==>
          Leads(c, file, t.filterHandle, t.filter) &&
          FilterPasses(policy.value.hash, t.filter, l.blocks, l.handles))
    && |file| >= FOOTER && file[|file| - FOOTER..] == FooterBytes(t.meta, t.index)
  }

  /** What the sizes of a table have to fit. */
  ghost predicate SizesFit(interval: nat, policy: Option<Policy>, file: Bytes, t: Stored)
    requires interval > 0
  {
    var l := t.layout;
    && |l.index| == |l.blocks| == |l.handles| && |file| < TWO64
    && (forall i :: 0 <= i < |l.blocks| ==> B.Fits(KVs(l.blocks[i]), interval))
    && B.Fits(IndexKVs(l.index, l.handles), 1) && B.Fits(MetaKVs(policy, t.filterHandle), interval)
  }

  // Building

  lemma KVsSnoc(es: seq<Entry>, e: Entry)
    ensures KVs(es + [e]) == KVs(es) + [B.KV(KeyBytes(e.key), e.value)]
  {
  }

  lemma KVsEmpty(es: seq<Entry>)
    ensures KVs(es) == [] <==> es == []
  {
  }

  lemma IndexSnoc(index: seq<IKey>, k: IKey, handles: seq<Handle>)
    requires |index| + 1 == |handles|
    ensures IndexKVs(index + [k], handles)
         == IndexKVs(index, handles) + [B.KV(KeyBytes(k), HandleBytes(handles[|index|]))]
  {
  }

  lemma WrittenStays(c: Codec, interval: nat, file: Bytes, more: Bytes, blocks: seq<seq<Entry>>, handles: seq<Handle>)
    requires interval > 0 && Written(c, interval, file, blocks, handles)
    ensures Written(c, interval, file + more, blocks, handles)
  {
    hide Leads, B.Fits, B.BlockOf, KVs;
    if |file + more| < TWO64 {
      forall i | 0 <= i < |blocks| && B.Fits(KVs(blocks[i]), interval)
        ensures Leads(c, file + more, handles[i], B.BlockOf(KVs(blocks[i]), interval))
      {
        LeadsStays(c, file, more, handles[i], B.BlockOf(KVs(blocks[i]), interval));
      }
    }
  }

  /** One more block at the end of the file. */
  lemma WrittenMore(c: Codec, interval: nat, file: Bytes, more: Bytes, l: Layout, block: seq<Entry>, h: Handle)
    requires interval > 0 && Written(c, interval, file, l.blocks, l.handles) && HandleOk(h)
    requires |file + more| < TWO64 && B.Fits(KVs(block), interval) ==>
               Leads(c, file + more, h, B.BlockOf(KVs(block), interval))
    ensures Written(c, interval, file + more, l.blocks + [block], l.handles + [h])
  {
    WrittenStays(c, interval, file, more, l.blocks, l.handles);
    hide Leads, B.Fits, B.BlockOf, KVs;
  }

  lemma PlacedFlush(l: Layout, data: seq<Entry>, at: nat, added: seq<(nat, Bytes)>, h: Handle, at': nat)
    requires |l.handles| == |l.blocks| && Placed(l.blocks, l.handles, data, at, added) && h.offset == at
    ensures Placed(l.blocks + [data], l.handles + [h], [], at', added)
  {
    hide KeyBytes;
  }

  lemma PlacedAdd(l: Layout, data: seq<Entry>, at: nat, added: seq<(nat, Bytes)>, e: Entry)
    requires |l.handles| == |l.blocks| && Placed(l.blocks, l.handles, data, at, added)
    ensures Placed(l.blocks, l.handles, data + [e], at, added + [(at, KeyBytes(e.key))])
  {
    hide KeyBytes;
  }

  class TableBuilder {
    const codec: Codec
    const policy: Option<Policy>
    const blockSize: nat
    const interval: nat
    const dataBlock: B.BlockBuilder
    const indexBlock: B.BlockBuilder
    const filterBlock: T.FilterBlockBuilder?   // null without a policy
    var file: Bytes
    var lastKey: Option<IKey>
    var pendingIndexEntry: bool
    var pendingHandle: Handle
    var closed: bool
    ghost var layout: Layout
    ghost var data: seq<Entry>                 // the entries of the block under construction

    constructor (codec: Codec, policy: Option<Policy>, blockSize: nat, interval: nat)
      requires CodecOk(codec) && interval >= 1 && (policy.Some? ==> 1 <= policy.value.probes <= 30)
      ensures this.codec == codec && this.policy == policy && this.interval == interval
      ensures Valid() && Added() == []
      ensures fresh(dataBlock) && fresh(indexBlock) && (filterBlock != null ==> fresh(filterBlock))
    {
      this.codec, this.policy, this.blockSize, this.interval := codec, policy, blockSize, interval;
      var d := new B.BlockBuilder(interval);
      var i := new B.BlockBuilder(1);
      var f: T.FilterBlockBuilder? := null;
      if policy.Some? {
        f := new T.FilterBlockBuilder(InternalHash(policy.value.hash), policy.value.bitsPerKey, policy.value.probes);
        f.StartBlock(0);
      }
      dataBlock, indexBlock, filterBlock := d, i, f;
      file, lastKey, pendingIndexEntry, pendingHandle, closed := [], None, false, Handle(0, 0), false;
      layout, data := Layout([], [], []), [];
    }

    /** All entries so far. */
    ghost function Added(): seq<Entry>
      reads this
    {
      Flatten(layout.blocks) + data
    }

    /** The parts fit one another. */
    ghost predicate Shape()
      reads this, dataBlock, indexBlock, filterBlock
    {
      && interval >= 1 && CodecOk(codec) && dataBlock != indexBlock
      && dataBlock.interval == interval && indexBlock.interval == 1 && dataBlock.Valid() && indexBlock.Valid()
      && (filterBlock == null <==> policy.None?)
      && (filterBlock != null ==> filterBlock.Valid() && filterBlock.hash == InternalHash(policy.value.hash))
      && |layout.index| <= |layout.blocks| == |layout.handles|
      && Written(codec, interval, file, layout.blocks, layout.handles)
    }

    /** What is ordered among the entries and the index keys so far. */
    ghost predicate Ordered()
      reads this
    {
      && Sorted(Added()) && KeysOk(Added()) && (forall k :: k in layout.index ==> KeyOk(k))
      && (lastKey.None? <==> Added() == []) && (Added() != [] ==> lastKey == Some(Added()[|Added()| - 1].key))
      && IndexedSoFar(layout.blocks, layout.index, data)
    }

    /** The index is complete except for the last block written, whose entry waits for the next key. */
    ghost predicate Valid()
      reads this, dataBlock, indexBlock, filterBlock
    {
      && !closed && Shape() && Ordered()
      && !dataBlock.finished && !indexBlock.finished && dataBlock.added == KVs(data)
      && indexBlock.added == IndexKVs(layout.index, layout.handles)
      && (if pendingIndexEntry then |layout.index| + 1 == |layout.blocks| && data == [] &&
                                    pendingHandle == layout.handles[|layout.index|]
          else |layout.index| == |layout.blocks|)
      && (filterBlock != null ==>
            filterBlock.at == |file| &&
            (|file| < TWO64 ==> Placed(layout.blocks, layout.handles, data, |file|, filterBlock.added)))
    }

    /** Appends the contents with their trailer, and says where they lie. */
    method WriteRawBlock(contents: Bytes, kind: byte) returns (h: Handle)
      modifies `file
      ensures file == old(file) + RawBlock(codec, contents, kind) && HandleOk(h)
      ensures |file| < TWO64 ==> h == Handle(|old(file)|, |contents|)
    {
      h := Handle(|file| % TWO64, |contents| % TWO64);
      file := file + RawBlock(codec, contents, kind);
    }

    /** Finishes a block, compresses it if that pays, and appends it. */
    method WriteBlock(block: B.BlockBuilder) returns (h: Handle)
      requires block.Valid() && !block.finished && block.interval >= 1 && CodecOk(codec)
      modifies `file, block
      ensures block.Valid() && !block.finished && block.added == []
      ensures old(file) <= file && HandleOk(h) && (|file| < TWO64 ==> h.offset == |old(file)|)
      ensures |file| < TWO64 && B.Fits(old(block.added), block.interval) ==>
                Leads(codec, file, h, B.BlockOf(old(block.added), block.interval))
    {
      hide B.Fits, B.BlockOf, Leads, RawBlock;
      var raw := block.Finish();
      var stored := Pack(codec, raw);
      h := WriteRawBlock(stored.0, stored.1);
      if |file| < TWO64 {
        WrittenLeads(codec, old(file), stored.0, stored.1, raw);
      }
      block.Reset();
    }

    /** The index entry of the last block written. */
    method AddIndexEntry(sep: IKey)
      requires indexBlock.Valid() && !indexBlock.finished && pendingIndexEntry
      requires |layout.index| + 1 == |layout.blocks| == |layout.handles|
      requires pendingHandle == layout.handles[|layout.index|]
      requires indexBlock.added == IndexKVs(layout.index, layout.handles)
      modifies `layout, `pendingIndexEntry, indexBlock
      ensures indexBlock.Valid() && !indexBlock.finished && !pendingIndexEntry
      ensures layout == old(layout).(index := old(layout).index + [sep])
      ensures indexBlock.added == IndexKVs(layout.index, layout.handles)
    {
      hide IndexKVs, HandleBytes, KeyBytes, B.BlockBuilder.Valid;
      IndexSnoc(layout.index, sep, layout.handles);
      indexBlock.Add(KeyBytes(sep), HandleBytes(pendingHandle));
      layout := layout.(index := layout.index + [sep]);
      pendingIndexEntry := false;
    }

    /** Adds an entry. When a block has just been written, its index key is chosen now that the next key is known. */
    method Add(e: Entry)
      requires Valid() && KeyOk(e.key) && (Added() != [] ==> Less(Added()[|Added()| - 1].key, e.key))
      modifies this, dataBlock, indexBlock, filterBlock
      ensures Valid() && Added() == old(Added()) + [e]
    {
      hide Written, Placed, IndexedSoFar, KVs, IndexKVs, Flatten, Leads, B.Fits, B.BlockOf, B.Built, Sorted, KeysOk;
      hide HandleBytes, KeyBytes, T.FilterBlockBuilder.Valid, B.BlockBuilder.Valid, CodecOk, Separates, Less, KeyOk;
      hide ShortenedBefore;
      ghost var l, d := layout, data;
      if pendingIndexEntry {
        LastAdded(l, d);
        var sep := InternalSeparator(lastKey.value, e.key);
        LastOk(Added(), sep);
        AddIndexEntry(sep);
      }
      AddLayout(l, d, layout.index, e);
      SortedSnoc(l, d, e);
      if filterBlock != null {
        if |file| < TWO64 {
          PlacedAdd(l, d, |file|, filterBlock.added, e);
        }
        filterBlock.AddKey(KeyBytes(e.key));
      }
      lastKey := Some(e.key);
      KVsSnoc(d, e);
      dataBlock.Add(KeyBytes(e.key), e.value);
      data := d + [e];
      if dataBlock.CurrentSizeEstimate() >= blockSize {
        Flush();
      }
    }

    /** Writes the block under construction, if it has an entry. */
    method Flush()
      requires Valid()
      modifies this, dataBlock, filterBlock
      ensures Valid() && Added() == old(Added()) && data == []
    {
      hide Written, Placed, IndexedSoFar, KVs, IndexKVs, Flatten, Leads, B.Fits, B.BlockOf, B.Built, Sorted, KeysOk;
      hide HandleBytes, KeyBytes, T.FilterBlockBuilder.Valid, B.BlockBuilder.Valid, CodecOk;
      assert data == [] <==> KVs(data) == [] by {
        KVsEmpty(data);
      }
      if dataBlock.Empty() {
        return;
      }
      ghost var before, l, d := file, layout, data;
      pendingHandle := WriteBlock(dataBlock);
      assert file == before + file[|before|..];
      WrittenMore(codec, interval, before, file[|before|..], l, d, pendingHandle);
      FlushLayout(l, d, pendingHandle);
      data, layout := [], Layout(l.blocks + [d], l.index, l.handles + [pendingHandle]);
      pendingIndexEntry := true;
      if filterBlock != null {
        if |file| < TWO64 {
          PlacedFlush(l, d, |before|, filterBlock.added, pendingHandle, |file|);
        }
        filterBlock.CanStart(|file|);
        filterBlock.StartBlock(|file|);
      }
    }

    method WriteFilter() returns (filter: Bytes, h: Handle)
      requires Valid() && data == []
      modifies `file, filterBlock
      ensures old(file) <= file && HandleOk(h)
      ensures policy.Some? && |file| < TWO64 ==> Leads(codec, file, h, filter)
      ensures filterBlock != null && |file| < TWO64 && T.Fits(filterBlock.filters) ==>
                FilterPasses(policy.value.hash, filter, layout.blocks, layout.handles)
    {
      hide Written, IndexedSoFar, KVs, IndexKVs, Flatten, Leads, B.Built, Sorted, KeysOk, HandleBytes, KeyBytes;
      hide T.FilterBlockBuilder.Valid, B.BlockBuilder.Valid, CodecOk, T.Fits, T.BlockOf, T.BlockMayMatch, RawBlock;
      filter, h := [], Handle(0, 0);
      if filterBlock != null {
        ghost var before := file;
        filter := filterBlock.Finish();
        h := WriteRawBlock(filter, 0);
        if |file| < TWO64 {
          WrittenLeads(codec, before, filter, 0, filter);
        }
      }
    }

    method WriteMeta(filterHandle: Handle) returns (meta: Handle)
      requires interval >= 1 && CodecOk(codec)
      modifies `file
      ensures old(file) <= file && HandleOk(meta)
      ensures |file| < TWO64 && B.Fits(MetaKVs(policy, filterHandle), interval) ==>
                Leads(codec, file, meta, B.BlockOf(MetaKVs(policy, filterHandle), interval))
    {
      hide Leads, B.Fits, B.BlockOf, B.Built, HandleBytes, CodecOk;
      var metaBlock := new B.BlockBuilder(interval);
      if policy.Some? {
        metaBlock.Add(PREFIX + policy.value.name, HandleBytes(filterHandle));
      }
      assert metaBlock.added == MetaKVs(policy, filterHandle);
      meta := WriteBlock(metaBlock);
    }

    method WriteIndex() returns (index: Handle)
      requires indexBlock.Valid() && !indexBlock.finished && indexBlock.interval == 1 && CodecOk(codec)
      requires |layout.index| <= |layout.handles| && indexBlock.added == IndexKVs(layout.index, layout.handles)
      modifies `file, indexBlock
      ensures old(file) <= file && HandleOk(index)
      ensures |file| < TWO64 && B.Fits(IndexKVs(layout.index, layout.handles), 1) ==>
                Leads(codec, file, index, B.BlockOf(IndexKVs(layout.index, layout.handles), 1))
    {
      index := WriteBlock(indexBlock);
    }

    /**
     Writes what is left: the last block, the filter, the metaindex, the index and the footer. When all sizes fit,
     the file is a table of the entries added.
     */
    method Finish() returns (ghost t: Stored)
      requires Valid()
      modifies this, dataBlock, indexBlock, filterBlock
      ensures closed && Flatten(t.layout.blocks) == old(Added())
      ensures SizesFit(interval, policy, file, t) && (filterBlock != null ==> T.Fits(filterBlock.filters)) ==>
                IsTable(codec, interval, policy, file, t)
    {
      hide Written, Placed, IndexedSoFar, KVs, IndexKVs, Flatten, Leads, B.Fits, B.BlockOf, B.Built, Sorted, KeysOk;
      hide HandleBytes, KeyBytes, T.FilterBlockBuilder.Valid, B.BlockBuilder.Valid, CodecOk, KeyOk, FooterBytes;
      hide IsTable, T.Fits, RawBlock, Closes, Shortened, FilterPasses, LayoutOk, MetaKVs, HandleOk, SizesFit;
      Flush();
      ghost var l, file0 := layout, file;
      var filter, filterHandle := WriteFilter();
      closed := true;
      ghost var file1 := file;
      var meta := WriteMeta(filterHandle);
      ghost var file2 := file;
      if pendingIndexEntry {
        LastAdded(l, []);
        var sep := InternalSuccessor(lastKey.value);
        LastOk(Added(), sep);
        AddIndexEntry(sep);
      }
      WrittenAll(codec, interval, file0, l.blocks, l.handles);
      FinishedLayout(l, layout.index);
      var index := WriteIndex();
      t := Stored(layout, filter, filterHandle, meta, index);
      ghost var file3 := file;
      file := file + FooterBytes(meta, index);
      if SizesFit(interval, policy, file, t) && (filterBlock != null ==> T.Fits(filterBlock.filters)) {
        FileFits(interval, policy, file, t);
        FinishedTable(codec, interval, policy, t, file0, file1, file2, file3);
      }
    }
  }

  lemma FileFits(interval: nat, policy: Option<Policy>, file: Bytes, t: Stored)
    requires interval > 0 && SizesFit(interval, policy, file, t)
    ensures |file| < TWO64 && |t.layout.index| == |t.layout.blocks| == |t.layout.handles|
    ensures forall i :: 0 <= i < |t.layout.blocks| ==> B.Fits(KVs(t.layout.blocks[i]), interval)
    ensures B.Fits(IndexKVs(t.layout.index, t.layout.handles), 1)
    ensures B.Fits(MetaKVs(policy, t.filterHandle), interval)
  {
  }

  lemma IsTableBy(c: Codec, interval: nat, policy: Option<Policy>, file: Bytes, t: Stored)
    requires interval > 0 && LayoutOk(t.layout) && HandleOk(t.filterHandle)
    requires HandleOk(t.meta) && HandleOk(t.index)
    requires forall i :: 0 <= i < |t.layout.blocks| ==>
                           B.Fits(KVs(t.layout.blocks[i]), interval) &&
                           Leads(c, file, t.layout.handles[i], B.BlockOf(KVs(t.layout.blocks[i]), interval))
    requires B.Fits(IndexKVs(t.layout.index, t.layout.handles), 1)
    requires Leads(c, file, t.index, B.BlockOf(IndexKVs(t.layout.index, t.layout.handles), 1))
    requires B.Fits(MetaKVs(policy, t.filterHandle), interval)
    requires Leads(c, file, t.meta, B.BlockOf(MetaKVs(policy, t.filterHandle), interval))
    requires policy.Some? ==> Leads(c, file, t.filterHandle, t.filter) &&
                              FilterPasses(policy.value.hash, t.filter, t.layout.blocks, t.layout.handles)
    requires |file| >= FOOTER && file[|file| - FOOTER..] == FooterBytes(t.meta, t.index)
    ensures IsTable(c, interval, policy, file, t)
  {
    hide Leads, B.Fits, B.BlockOf, KVs, IndexKVs, MetaKVs, FilterPasses, FooterBytes, HandleOk;
  }

  /** With a key for the last block, if there is one, the index is complete. */
  lemma FinishedLayout(l: Layout, index: seq<IKey>)
    requires IndexedSoFar(l.blocks, l.index, []) && |l.blocks| == |l.handles|
    requires forall h :: h in l.handles ==> HandleOk(h)
    requires Sorted(Flatten(l.blocks) + []) && KeysOk(Flatten(l.blocks) + []) && forall k :: k in index ==> KeyOk(k)
    requires if |l.index| == |l.blocks| then index == l.index
             else |index| == |l.blocks| && index == l.index + [index[|l.index|]] &&
                  l.blocks[|l.index|] != [] && Closes(Last(l.blocks[|l.index|]), index[|l.index|])
    ensures LayoutOk(Layout(l.blocks, index, l.handles)) && Flatten(l.blocks) + [] == Flatten(l.blocks)
  {
    hide Separates, Closes, Flatten;
    assert Flatten(l.blocks) + [] == Flatten(l.blocks);
  }

  /** Later bytes leave what was written in place. */
  lemma FinishedTable(c: Codec, interval: nat, policy: Option<Policy>, t: Stored, file0: Bytes, file1: Bytes,
                      file2: Bytes, file3: Bytes)
    requires interval > 0 && file0 <= file1 <= file2 <= file3 && LayoutOk(t.layout)
    requires HandleOk(t.filterHandle) && HandleOk(t.meta) && HandleOk(t.index)
    requires Written(c, interval, file0, t.layout.blocks, t.layout.handles)
    requires policy.Some? && |file1| < TWO64 ==>
               Leads(c, file1, t.filterHandle, t.filter) &&
               FilterPasses(policy.value.hash, t.filter, t.layout.blocks, t.layout.handles)
    requires |file2| < TWO64 && B.Fits(MetaKVs(policy, t.filterHandle), interval) ==>
               Leads(c, file2, t.meta, B.BlockOf(MetaKVs(policy, t.filterHandle), interval))
    requires |file3| < TWO64 && B.Fits(IndexKVs(t.layout.index, t.layout.handles), 1) ==>
               Leads(c, file3, t.index, B.BlockOf(IndexKVs(t.layout.index, t.layout.handles), 1))
    requires SizesFit(interval, policy, file3 + FooterBytes(t.meta, t.index), t)
    ensures IsTable(c, interval, policy, file3 + FooterBytes(t.meta, t.index), t)
  {
    var footer := FooterBytes(t.meta, t.index);
    var file := file3 + footer;
    InPlace(file0, file1, file2, file3, footer);
    FileFits(interval, policy, file, t);
    hide Leads, B.Fits, B.BlockOf, KVs, IndexKVs, MetaKVs, LayoutOk, FilterPasses, FooterBytes, HandleOk, Written;
    hide IsTable, SizesFit;
    WrittenStays(c, interval, file0, file[|file0|..], t.layout.blocks, t.layout.handles);
    WrittenAll(c, interval, file, t.layout.blocks, t.layout.handles);
    if policy.Some? {
      LeadsStays(c, file1, file[|file1|..], t.filterHandle, t.filter);
    }
    LeadsStays(c, file2, file[|file2|..], t.meta, B.BlockOf(MetaKVs(policy, t.filterHandle), interval));
    LeadsStays(c, file3, footer, t.index, B.BlockOf(IndexKVs(t.layout.index, t.layout.handles), 1));
    IsTableBy(c, interval, policy, file, t);
  }

  lemma InPlace(a: Bytes, b: Bytes, c: Bytes, d: Bytes, footer: Bytes)
    requires a <= b <= c <= d
    ensures var file := d + footer;
            && |a| <= |file| && |b| <= |file| && |c| <= |file| && |footer| <= |file|
            && file == a + file[|a|..] && file == b + file[|b|..] && file == c + file[|c|..]
            && file[|file| - |footer|..] == footer
  {
  }

  lemma WrittenAll(c: Codec, interval: nat, file: Bytes, blocks: seq<seq<Entry>>, handles: seq<Handle>)
    requires interval > 0 && Written(c, interval, file, blocks, handles)
    ensures forall h :: h in handles ==> HandleOk(h)
    ensures |file| < TWO64 && (forall i :: 0 <= i < |blocks| ==> B.Fits(KVs(blocks[i]), interval)) ==>
              forall i :: 0 <= i < |blocks| ==>
                            B.Fits(KVs(blocks[i]), interval) &&
                            Leads(c, file, handles[i], B.BlockOf(KVs(blocks[i]), interval))
  {
    hide Leads, B.Fits, B.BlockOf, KVs, HandleOk;
  }

  /** A flush moves entries from the block under construction to the blocks. */
  lemma FlushLayout(l: Layout, data: seq<Entry>, h: Handle)
    requires data != [] && |l.index| == |l.blocks| == |l.handles| && IndexedSoFar(l.blocks, l.index, data)
    ensures Flatten(l.blocks + [data]) + [] == Flatten(l.blocks) + data && KVs([]) == []
    ensures IndexedSoFar(l.blocks + [data], l.index, [])
    ensures IndexKVs(l.index, l.handles + [h]) == IndexKVs(l.index, l.handles)
    ensures (l.handles + [h])[|l.index|] == h
  {
    hide IndexedSoFar, Flatten;
    FlattenSnoc(l.blocks, data);
    FlushIndexed(l.blocks, l.index, data);
    SameIndex(l.index, l.handles, h);
  }

  lemma LastOk(all: seq<Entry>, sep: IKey)
    requires all != [] && KeysOk(all) && (all[|all| - 1].key.seqno <= MAX_SEQUENCE ==> sep.seqno <= MAX_SEQUENCE)
    ensures KeyOk(sep)
  {
    assert all[|all| - 1] in all;
  }

  lemma LastAdded(l: Layout, data: seq<Entry>)
    requires |l.index| + 1 == |l.blocks| && data == [] && IndexedSoFar(l.blocks, l.index, data)
    ensures var all := Flatten(l.blocks) + data;
            all != [] && l.blocks[|l.index|] != [] && all[|all| - 1].key == Last(l.blocks[|l.index|])
  {
    LastOfFlatten(l.blocks, data);
  }

  /** With a key for the last block, if that was missing, the index is complete before the entry. */
  lemma AddLayout(l: Layout, data: seq<Entry>, index: seq<IKey>, e: Entry)
    requires IndexedSoFar(l.blocks, l.index, data)
    requires if |l.index| == |l.blocks| then index == l.index
             else data == [] && |index| == |l.blocks| && index == l.index + [index[|l.index|]] &&
                  l.blocks[|l.index|] != [] && Separates(Last(l.blocks[|l.index|]), index[|l.index|], e.key)
    ensures IndexedSoFar(l.blocks, index, data + [e])
  {
    hide Separates;
    AddIndexed(l.blocks, index, data, e);
  }

  lemma SortedSnoc(l: Layout, data: seq<Entry>, e: Entry)
    requires var all := Flatten(l.blocks) + data;
             Sorted(all) && KeysOk(all) && KeyOk(e.key) && (all != [] ==> Less(all[|all| - 1].key, e.key))
    ensures var all := Flatten(l.blocks) + data;
            var more := Flatten(l.blocks) + (data + [e]);
            more == all + [e] && Sorted(more) && KeysOk(more)
  {
    hide Less;
    var all := Flatten(l.blocks) + data;
    var more := all + [e];
    forall i | 0 <= i < |all|
      ensures Less(all[i].key, e.key)
    {
      if i < |all| - 1 {
        LessOn(all[i].key, all[|all| - 1].key, e.key);
      }
    }
  }

  lemma LessOn(a: IKey, b: IKey, c: IKey)
    requires Less(a, b) && Less(b, c)
    ensures Less(a, c)
  {
  }

  lemma SameIndex(index: seq<IKey>, handles: seq<Handle>, h: Handle)
    requires |index| <= |handles|
    ensures IndexKVs(index, handles + [h]) == IndexKVs(index, handles)
  {
  }

  // Reading

  /** An opened table: its index block and, if there is one for the reader's policy, its filter. */
  datatype Opened = Opened(index: Bytes, filter: Option<Bytes>)

  /** The reader's policy is that of the writer: the name stands for the hash function. */
  ghost predicate SamePolicy(policy: Option<Policy>, written: Option<Policy>) {
    policy.Some? && written.Some? && policy.value.name == written.value.name
  }

  ghost predicate NamesMean(policy: Option<Policy>, written: Option<Policy>) {
    SamePolicy(policy, written) ==> policy.value.hash == written.value.hash
  }

  /** What opening a table leaves: its index, and its filter exactly when the policies have the same name. */
  ghost predicate OpenedAs(policy: Option<Policy>, written: Option<Policy>, t: Stored, o: Opened)
    requires |t.layout.index| <= |t.layout.handles| && B.Fits(IndexKVs(t.layout.index, t.layout.handles), 1)
  {
    && o.index == B.BlockOf(IndexKVs(t.layout.index, t.layout.handles), 1)
    && o.filter == if SamePolicy(policy, written) then Some(t.filter) else None
  }

  /** What a search of a block finds: nothing to read, no entry, or one. */
  datatype Sought = Unreadable | Past | At(key: Bytes, value: Bytes)

  /** The first entry whose key is not below `k`. */
  ghost predicate FoundAt(es: seq<B.KV>, less: (Bytes, Bytes) -> bool, k: Bytes, at: nat, r: Sought) {
    && at <= |es| && (forall j :: 0 <= j < at ==> less(es[j].key, k))
    && (if at == |es| then r == Past else r == At(es[at].key, es[at].value) && !less(es[at].key, k))
  }

  ghost predicate Ascend(es: seq<B.KV>, less: (Bytes, Bytes) -> bool) {
    && (forall a, b :: 0 <= a < b < |es| ==> less(es[a].key, es[b].key))
    && (forall x, y, z :: less(x, y) && less(y, z) ==> less(x, z))
  }

  /** Searches the bytes of a block. */
  method SeekIn(contents: Bytes, less: (Bytes, Bytes) -> bool, k: Bytes, ghost es: seq<B.KV>, ghost interval: nat)
    returns (r: Sought, ghost at: nat)
    ensures interval > 0 && B.Fits(es, interval) && contents == B.BlockOf(es, interval) && Ascend(es, less) ==>
              FoundAt(es, less, k, at, r)
  {
    hide B.Fits, B.BlockOf, B.Offset, B.Enc, B.Restarts, B.Iter.Divides;
    at := 0;
    var o := B.NewIterator(less, contents, es, interval);
    if !o.Ready? {
      return Unreadable, 0;
    }
    var it := o.iter;
    it.Seek(k);
    at := if it.current < it.restarts then it.at else |es|;
    if it.corrupt {
      return Unreadable, at;
    }
    if it.current < it.restarts {
      r := At(it.key, it.data[it.valueStart..it.valueEnd]);
    } else {
      r := Past;
    }
  }

  function Bytewise(): (Bytes, Bytes) -> bool {
    (a: Bytes, b: Bytes) => Ord(a) < Ord(b)
  }

  lemma BytesAscend(es: seq<B.KV>)
    requires |es| <= 1
    ensures Ascend(es, Bytewise())
  {
    hide Ord;
  }

  /** The entry of the metaindex names the filter. */
  lemma MetaFound(policy: Policy, written: Option<Policy>, h: Handle, at: nat, r: Sought)
    requires FoundAt(MetaKVs(written, h), Bytewise(), PREFIX + policy.name, at, r)
    ensures SamePolicy(Some(policy), written) ==> r == At(PREFIX + policy.name, HandleBytes(h))
    ensures !SamePolicy(Some(policy), written) ==> r == Past || (r.At? && r.key != PREFIX + policy.name)
  {
    hide Ord, HandleBytes;
    if written.Some? {
      assert MetaKVs(written, h)[0].key == PREFIX + written.value.name;
    }
    if written.Some? && written.value.name != policy.name {
      assert (PREFIX + policy.name)[|PREFIX|..] == policy.name;
      assert (PREFIX + written.value.name)[|PREFIX|..] == written.value.name;
    }
  }

  /** What the parts of a table read as. */
  lemma PartsRead(c: Codec, interval: nat, written: Option<Policy>, file: Bytes, t: Stored, verify: bool)
    requires interval > 0 && IsTable(c, interval, written, file, t)
    ensures |file| >= FOOTER && DecodeFooter(file[|file| - FOOTER..]) == Some(Footer(t.meta, t.index))
    ensures |t.layout.index| == |t.layout.handles| && B.Fits(IndexKVs(t.layout.index, t.layout.handles), 1)
    ensures ReadBlock(c, file, t.index, verify) == Some(B.BlockOf(IndexKVs(t.layout.index, t.layout.handles), 1))
    ensures B.Fits(MetaKVs(written, t.filterHandle), interval)
    ensures ReadBlock(c, file, t.meta, verify) == Some(B.BlockOf(MetaKVs(written, t.filterHandle), interval))
    ensures HandleOk(t.filterHandle)
    ensures written.Some? ==> ReadBlock(c, file, t.filterHandle, verify) == Some(t.filter)
  {
    hide B.Fits, B.BlockOf, KVs, IndexKVs, MetaKVs, FooterBytes, DecodeFooter, ReadBlock, FilterPasses, Indexed, Sorted;
    FooterBack(t.meta, t.index);
  }

  /** Looks for the filter in the metaindex; without one, lookups do without. */
  method ReadMeta(c: Codec, policy: Policy, paranoid: bool, file: Bytes, metaHandle: Handle, ghost interval: nat,
                  ghost written: Option<Policy>, ghost t: Stored)
    returns (filter: Option<Bytes>)
    ensures interval > 0 && IsTable(c, interval, written, file, t) && metaHandle == t.meta ==>
              filter == if SamePolicy(Some(policy), written) then Some(t.filter) else None
  {
    ghost var good := interval > 0 && IsTable(c, interval, written, file, t) && metaHandle == t.meta;
    ghost var es := MetaKVs(written, t.filterHandle);
    hide IsTable, B.Fits, B.BlockOf, HandleBytes, MetaKVs, GetHandle, ReadBlock, FoundAt, KVs, IndexKVs, Ascend;
    hide Bytewise;
    if good {
      PartsRead(c, interval, written, file, t, paranoid);
    }
    var contents := ReadBlock(c, file, metaHandle, paranoid);
    if contents.None? {
      return None;
    }
    MetaLength(written, t.filterHandle);
    BytesAscend(es);
    var key := PREFIX + policy.name;
    var r, at := SeekIn(contents.value, Bytewise(), key, es, interval);
    if good {
      MetaFound(policy, written, t.filterHandle, at, r);
      HandleAlone(t.filterHandle);
    }
    if r.At? && r.key == key {
      var h := GetHandle(r.value);
      if h.Bad? {
        return None;
      }
      filter := ReadBlock(c, file, h.value, paranoid);
    } else {
      filter := None;
    }
  }

  lemma HandleAlone(h: Handle)
    requires HandleOk(h)
    ensures GetHandle(HandleBytes(h)) == Taken(h, [])
  {
    hide HandleBytes, GetHandle;
    HandleBack(h, []);
    assert HandleBytes(h) + [] == HandleBytes(h);
  }

  lemma MetaLength(policy: Option<Policy>, h: Handle)
    ensures |MetaKVs(policy, h)| <= 1
  {
  }

  /** The index block that the footer of any file leads to. */
  function IndexOf(c: Codec, file: Bytes, verify: bool): Option<Bytes> {
    if |file| < FOOTER || DecodeFooter(file[|file| - FOOTER..]).None? then None
    else ReadBlock(c, file, DecodeFooter(file[|file| - FOOTER..]).value.index, verify)
  }

  /** A file is opened, checksums looked at, only if it ends in the magic number and its index block is intact. */
  lemma OpensOnlyTables(c: Codec, file: Bytes)
    requires IndexOf(c, file, true).Some?
    ensures |file| >= FOOTER && file[|file| - 8..] == Fixed64(MAGIC)
    ensures exists h, contents, kind :: LiesAt(c, file, h, contents, kind)
                                        && StandFor(c, contents, kind, IndexOf(c, file, true).value)
  {
    hide ReadBlock, DecodeFooter, LiesAt, StandFor, Fixed64;
    var footer := file[|file| - FOOTER..];
    FooterMagic(footer);
    assert footer[FOOTER - 8..] == file[|file| - 8..];
    VerifiedExactly(c, file, DecodeFooter(footer).value.index, IndexOf(c, file, true).value);
  }

  /** Opens a table by its footer. */
  method Open(c: Codec, policy: Option<Policy>, paranoid: bool, file: Bytes, ghost interval: nat,
              ghost written: Option<Policy>, ghost t: Stored)
    returns (r: Option<Opened>)
    ensures interval > 0 && IsTable(c, interval, written, file, t) ==>
              r.Some? && OpenedAs(policy, written, t, r.value) && (r.value.filter.Some? ==> policy.Some?)
    ensures r.Some? <==> IndexOf(c, file, paranoid).Some?
    ensures r.Some? ==> r.value.index == IndexOf(c, file, paranoid).value
  {
    ghost var good := interval > 0 && IsTable(c, interval, written, file, t);
    if good {
      PartsRead(c, interval, written, file, t, paranoid);
    }
    hide IsTable, B.Fits, B.BlockOf, MetaKVs, IndexKVs, GetHandle, ReadBlock, DecodeFooter, OpenedAs, SamePolicy;
    if |file| < FOOTER {
      return None;
    }
    var footer := DecodeFooter(file[|file| - FOOTER..]);
    if footer.None? {
      return None;
    }
    var index := ReadBlock(c, file, footer.value.index, paranoid);
    if index.None? {
      return None;
    }
    var filter := None;
    if policy.Some? {
      filter := ReadMeta(c, policy.value, paranoid, file, footer.value.meta, interval, written, t);
    }
    r := Some(Opened(index.value, filter));
    if good {
      OpenedIs(policy, written, t, r.value);
    }
  }

  lemma OpenedIs(policy: Option<Policy>, written: Option<Policy>, t: Stored, o: Opened)
    requires |t.layout.index| <= |t.layout.handles| && B.Fits(IndexKVs(t.layout.index, t.layout.handles), 1)
    requires o.index == B.BlockOf(IndexKVs(t.layout.index, t.layout.handles), 1)
    requires if policy.None? then o.filter.None?
             else o.filter == if SamePolicy(Some(policy.value), written) then Some(t.filter) else None
    ensures OpenedAs(policy, written, t, o)
  {
    hide B.Fits, B.BlockOf, IndexKVs;
  }

  /** What a lookup reports: the entry of the key, nothing, or bytes that are no table. */
  datatype Outcome = Hit(entry: Entry) | Miss | Corrupt

  /** Whether an entry that was found is of the user key. */
  function SaveValue(r: Sought, user: Bytes): Outcome {
    if r.Unreadable? then Corrupt
    else if r.Past? then Miss
    else
      var key := ParseKey(r.key);
      if key.None? then Corrupt else if key.value.user == user then Hit(Entry(key.value, r.value)) else Miss
  }

  function OutcomeOf(e: Option<Entry>): Outcome {
    if e.Some? then Hit(e.value) else Miss
  }

  /** The order of encoded keys as a function. */
  function ByKey(): (Bytes, Bytes) -> bool {
    (a: Bytes, b: Bytes) => KeyLess(a, b)
  }

  lemma ByKeyOrders()
    ensures forall x, y, z :: ByKey()(x, y) && ByKey()(y, z) ==> ByKey()(x, z)
  {
    hide KeyLess;
    forall x, y, z | KeyLess(x, y) && KeyLess(y, z)
      ensures KeyLess(x, z)
    {
      KeyLessOrders(x, y, z);
    }
  }

  lemma BlockAscends(block: seq<Entry>)
    requires Sorted(block) && KeysOk(block)
    ensures Ascend(KVs(block), ByKey())
  {
    hide KeyLess, Less, KeyBytes;
    ByKeyOrders();
    forall a, b | 0 <= a < b < |block|
      ensures ByKey()(KVs(block)[a].key, KVs(block)[b].key)
    {
      assert block[a] in block && block[b] in block && Less(block[a].key, block[b].key);
      KeyLessIsLess(block[a].key, block[b].key);
    }
  }

  /** Index keys ascend. */
  lemma {:induction false} IndexOrder(l: Layout, a: nat, b: nat)
    requires LayoutOk(l) && a < b < |l.index|
    ensures Less(l.index[a], l.index[b])
    decreases b
  {
    hide Flatten, Sorted, KeysOk;
    if a < b - 1 {
      IndexOrder(l, a, b - 1);
    }
    IndexStep(l, b - 1);
    hide Less, LayoutOk;
    if a < b - 1 {
      LessOn(l.index[a], l.index[b - 1], l.index[b]);
    }
  }

  lemma IndexStep(l: Layout, a: nat)
    requires LayoutOk(l) && a + 1 < |l.index|
    ensures Less(l.index[a], l.index[a + 1])
  {
    var next := l.blocks[a + 1];
    assert Separates(Last(l.blocks[a]), l.index[a], First(next));
    assert AtMost(Last(next), l.index[a + 1]) by {
      if a + 2 < |l.blocks| {
        assert Separates(Last(next), l.index[a + 1], First(l.blocks[a + 2]));
      }
    }
    BlockSorted(l, a + 1);
    assert |next| > 1 ==> Less(next[0].key, next[|next| - 1].key);
    hide LayoutOk, Sorted;
  }

  lemma BlockSorted(l: Layout, i: nat)
    requires LayoutOk(l) && i < |l.blocks|
    ensures Sorted(l.blocks[i]) && KeysOk(l.blocks[i])
  {
    hide Indexed, Sorted;
    SortedBlock(l.blocks, i);
    FlattenMembers(l.blocks);
  }

  lemma {:induction false} SortedBlock(blocks: seq<seq<Entry>>, i: nat)
    requires Sorted(Flatten(blocks)) && i < |blocks|
    ensures Sorted(blocks[i])
  {
    var n := |blocks| - 1;
    SortedParts(Flatten(blocks[..n]), blocks[n]);
    hide Sorted, Flatten;
    if i < n {
      SortedBlock(blocks[..n], i);
    }
  }

  lemma SortedParts(a: seq<Entry>, b: seq<Entry>)
    requires Sorted(a + b)
    ensures Sorted(a) && Sorted(b)
  {
    assert forall i :: 0 <= i < |a| ==> (a + b)[i] == a[i];
    assert forall i :: 0 <= i < |b| ==> (a + b)[|a| + i] == b[i];
  }

  lemma IndexAscends(l: Layout)
    requires LayoutOk(l)
    ensures Ascend(IndexKVs(l.index, l.handles), ByKey())
  {
    assert forall k :: k in l.index ==> KeyOk(k);
    hide KeyLess, Less, KeyBytes, LayoutOk;
    ByKeyOrders();
    var es := IndexKVs(l.index, l.handles);
    forall a, b | 0 <= a < b < |l.index|
      ensures ByKey()(es[a].key, es[b].key)
    {
      IndexOrder(l, a, b);
      KeyLessIsLess(l.index[a], l.index[b]);
    }
  }

  /** Searching the bytes of the index finds what searching its keys finds. */
  lemma IndexFound(l: Layout, k: IKey, i: nat, at: Sought)
    requires LayoutOk(l) && KeyOk(k) && FoundAt(IndexKVs(l.index, l.handles), ByKey(), KeyBytes(k), i, at)
    ensures i <= |l.index| && forall j :: 0 <= j < i ==> Less(l.index[j], k)
    ensures if i == |l.index| then at == Past
            else AtMost(k, l.index[i]) && at == At(KeyBytes(l.index[i]), HandleBytes(l.handles[i]))
  {
    hide KeyLess, Less, KeyBytes, Indexed, Sorted, KeysOk, HandleBytes;
    var es := IndexKVs(l.index, l.handles);
    forall j | 0 <= j < i
      ensures Less(l.index[j], k)
    {
      assert ByKey()(es[j].key, KeyBytes(k));
      KeyLessIsLess(l.index[j], k);
    }
    if i < |l.index| {
      KeyLessIsLess(l.index[i], k);
    }
  }

  /** Searching the bytes of a block finds what searching its entries finds. */
  lemma BlockFound(block: seq<Entry>, user: Bytes, snapshot: nat, j: nat, found: Sought)
    requires Sorted(block) && KeysOk(block) && snapshot <= MAX_SEQUENCE
    requires FoundAt(KVs(block), ByKey(), KeyBytes(LookupKey(user, snapshot)), j, found)
    ensures SaveValue(found, user) == OutcomeOf(TableGet(block, user, snapshot))
  {
    hide KeyLess, KeyBytes, FirstAtLeast;
    var k, es := LookupKey(user, snapshot), KVs(block);
    forall x | 0 <= x < |block|
      ensures ByKey()(es[x].key, KeyBytes(k)) <==> Less(block[x].key, k)
    {
      assert block[x] in block;
      KeyLessIsLess(block[x].key, k);
    }
    hide Less;
    assert j == FirstAtLeast(block, k);
    if j < |block| {
      assert block[j] in block;
      ParseBack(block[j].key);
    }
  }

  /** A filter's answer is for the user key. */
  lemma SameAnswer(hash: Hash, filter: Bytes, offset: nat, a: Bytes, b: Bytes)
    requires UserOf(a) == UserOf(b)
    ensures T.BlockMayMatch(InternalHash(hash), filter, offset, a) <==>
            T.BlockMayMatch(InternalHash(hash), filter, offset, b)
  {
    hide T.Open, T.Index, T.Word, Position, ProbeHash, BitAt;
    assert forall bits, j :: bits > 0 ==>
                               Probe(InternalHash(hash), a, bits, j) == Probe(InternalHash(hash), b, bits, j);
    hide Probe;
  }

  /** A block that the filter rules out has no entry of the user key. */
  lemma RuledOut(hash: Hash, filter: Bytes, l: Layout, i: nat, user: Bytes, snapshot: nat)
    requires LayoutOk(l) && FilterPasses(hash, filter, l.blocks, l.handles) && i < |l.blocks|
    requires snapshot <= MAX_SEQUENCE
    requires !T.BlockMayMatch(InternalHash(hash), filter, l.handles[i].offset, KeyBytes(LookupKey(user, snapshot)))
    ensures TableGet(l.blocks[i], user, snapshot).None?
  {
    hide T.BlockMayMatch, KeyBytes, InternalHash;
    BlockSorted(l, i);
    hide LayoutOk, FirstAtLeast, UserOf;
    var r := TableGet(l.blocks[i], user, snapshot);
    if r.Some? {
      assert r.value in l.blocks[i];
      KeyParts(r.value.key);
      KeyParts(LookupKey(user, snapshot));
      SameAnswer(hash, filter, l.handles[i].offset, KeyBytes(r.value.key), KeyBytes(LookupKey(user, snapshot)));
    }
  }

  /** A table that was opened for a policy that means what its name means. */
  ghost predicate Readable(c: Codec, interval: nat, written: Option<Policy>, file: Bytes, t: Stored,
                           policy: Option<Policy>, o: Opened)
  {
    interval > 0 && IsTable(c, interval, written, file, t) && NamesMean(policy, written) &&
    OpenedAs(policy, written, t, o) && Merged(Flatten(t.layout.blocks))
  }

  /** What a lookup needs to know of the table. */
  lemma ReadableParts(c: Codec, interval: nat, written: Option<Policy>, file: Bytes, t: Stored, policy: Option<Policy>,
                      o: Opened, verify: bool)
    requires Readable(c, interval, written, file, t, policy, o)
    ensures interval > 0 && LayoutOk(t.layout) && Merged(Flatten(t.layout.blocks))
    ensures B.Fits(IndexKVs(t.layout.index, t.layout.handles), 1)
    ensures o.index == B.BlockOf(IndexKVs(t.layout.index, t.layout.handles), 1)
    ensures forall i :: 0 <= i < |t.layout.blocks| ==>
                          B.Fits(KVs(t.layout.blocks[i]), interval) && HandleOk(t.layout.handles[i]) &&
                          ReadBlock(c, file, t.layout.handles[i], verify)
                          == Some(B.BlockOf(KVs(t.layout.blocks[i]), interval))
    ensures policy.Some? && o.filter.Some? ==>
              FilterPasses(policy.value.hash, o.filter.value, t.layout.blocks, t.layout.handles)
  {
    hide B.Fits, B.BlockOf, KVs, IndexKVs, MetaKVs, FooterBytes, ReadBlock, FilterPasses, LayoutOk, Merged, Flatten;
    assert |t.layout.index| == |t.layout.blocks| == |t.layout.handles| by {
      assert LayoutOk(t.layout);
      LayoutLengths(t.layout);
    }
  }

  lemma LayoutLengths(l: Layout)
    requires LayoutOk(l)
    ensures |l.index| == |l.blocks| == |l.handles|
  {
  }

  /** The file is what is left of a table: each block still reads as it did, or is refused. */
  ghost predicate LeftOf(c: Codec, whole: Bytes, file: Bytes, handles: seq<Handle>, verify: bool) {
    forall i :: 0 <= i < |handles| ==>
                  || ReadBlock(c, file, handles[i], verify).None?
                  || ReadBlock(c, file, handles[i], verify) == ReadBlock(c, whole, handles[i], verify)
  }

  ghost predicate SomeRefused(c: Codec, file: Bytes, handles: seq<Handle>, verify: bool) {
    exists i :: 0 <= i < |handles| && ReadBlock(c, file, handles[i], verify).None?
  }

  lemma NoneRefused(c: Codec, interval: nat, written: Option<Policy>, file: Bytes, t: Stored, policy: Option<Policy>,
                    o: Opened, verify: bool)
    requires Readable(c, interval, written, file, t, policy, o)
    ensures LeftOf(c, file, file, t.layout.handles, verify) && !SomeRefused(c, file, t.layout.handles, verify)
  {
    hide B.Fits, B.BlockOf, KVs, ReadBlock, LayoutOk, Readable;
    ReadableParts(c, interval, written, file, t, policy, o, verify);
    LayoutLengths(t.layout);
  }

  /**
   The lookup: through the index to one block, past it if the filter says so, and to the entry in it.
   If blocks were damaged since the table was opened, and reading them is refused, the answer is still
   right or says so.
   */
  method InternalGet(c: Codec, policy: Option<Policy>, verify: bool, file: Bytes, o: Opened, user: Bytes,
                     snapshot: nat, ghost interval: nat, ghost written: Option<Policy>, ghost t: Stored,
                     ghost whole: Bytes)
    returns (r: Outcome)
    requires snapshot <= MAX_SEQUENCE && (o.filter.Some? ==> policy.Some?)
    ensures Readable(c, interval, written, file, t, policy, o) && whole == file ==>
              r == OutcomeOf(TableGet(Flatten(t.layout.blocks), user, snapshot))
    ensures Readable(c, interval, written, whole, t, policy, o) && LeftOf(c, whole, file, t.layout.handles, verify) ==>
              || r == OutcomeOf(TableGet(Flatten(t.layout.blocks), user, snapshot))
              || (r == Corrupt && SomeRefused(c, file, t.layout.handles, verify))
  {
    if Readable(c, interval, written, file, t, policy, o) && whole == file {
      NoneRefused(c, interval, written, file, t, policy, o, verify);
    }
    ghost var good := Readable(c, interval, written, whole, t, policy, o)
                      && LeftOf(c, whole, file, t.layout.handles, verify);
    ghost var l := t.layout;
    hide LayoutOk, B.Fits, B.BlockOf, GetHandle, ReadBlock, KVs, FilterPasses, FoundAt, Ascend, Readable, HandleOk;
    hide KeyBytes, HandleBytes, T.BlockMayMatch, TableGet, Flatten, Merged, InternalHash, SaveValue, IndexKVs, ByKey;
    hide Less, AtMost;
    if good {
      ReadableParts(c, interval, written, whole, t, policy, o, verify);
      LayoutLengths(l);
      IndexAscends(l);
    }
    var k := KeyBytes(LookupKey(user, snapshot));
    var at, i := SeekIn(o.index, ByKey(), k, if good then IndexKVs(l.index, l.handles) else [], 1);
    if good {
      IndexFound(l, LookupKey(user, snapshot), i, at);
      Narrowed(l, i, user, snapshot);
    }
    if !at.At? {
      return if at.Past? then Miss else Corrupt;
    }
    if good {
      HandleAlone(l.handles[i]);
    }
    var h := GetHandle(at.value);
    if o.filter.Some? && h.Taken? {
      var may := T.BlockKeyMayMatch(InternalHash(policy.value.hash), o.filter.value, h.value.offset, k);
      if !may {
        if good {
          RuledOut(policy.value.hash, o.filter.value, l, i, user, snapshot);
        }
        return Miss;
      }
    }
    if h.Bad? {
      return Corrupt;
    }
    var contents := ReadBlock(c, file, h.value, verify);
    if contents.None? {
      return Corrupt;
    }
    assert good ==> Sorted(l.blocks[i]) && KeysOk(l.blocks[i]) by {
      if good {
        BlockSorted(l, i);
      }
    }
    r := SearchBlock(contents.value, user, snapshot, if good then l.blocks[i] else [], interval);
  }

  /** The entry in the block. */
  method SearchBlock(contents: Bytes, user: Bytes, snapshot: nat, ghost block: seq<Entry>, ghost interval: nat)
    returns (r: Outcome)
    requires snapshot <= MAX_SEQUENCE && Sorted(block) && KeysOk(block)
    ensures interval > 0 && B.Fits(KVs(block), interval) && contents == B.BlockOf(KVs(block), interval) ==>
              r == OutcomeOf(TableGet(block, user, snapshot))
  {
    hide B.Fits, B.BlockOf, KVs, FoundAt, Ascend, KeyBytes, TableGet, SaveValue, ByKey, Sorted, KeysOk;
    BlockAscends(block);
    var found, j := SeekIn(contents, ByKey(), KeyBytes(LookupKey(user, snapshot)), KVs(block), interval);
    r := SaveValue(found, user);
    if FoundAt(KVs(block), ByKey(), KeyBytes(LookupKey(user, snapshot)), j, found) {
      BlockFound(block, user, snapshot, j, found);
    }
  }

  /** The block that the index selects decides, and none is selected only when there is nothing to find. */
  lemma Narrowed(l: Layout, i: nat, user: Bytes, snapshot: nat)
    requires LayoutOk(l) && Merged(Flatten(l.blocks)) && i <= |l.index|
    requires forall j :: 0 <= j < i ==> Less(l.index[j], LookupKey(user, snapshot))
    requires i < |l.index| ==> AtMost(LookupKey(user, snapshot), l.index[i])
    ensures |l.index| == |l.blocks| == |l.handles|
    ensures TableGet(Flatten(l.blocks), user, snapshot)
         == if i < |l.blocks| then TableGet(l.blocks[i], user, snapshot) else None
  {
    hide Indexed, Merged, Flatten, TableGet, Sorted, KeysOk;
    if i < |l.index| {
      LookupInBlock(l.blocks, l.index, i, user, snapshot);
    } else {
      LookupPastEnd(l.blocks, l.index, user, snapshot);
    }
  }
}
