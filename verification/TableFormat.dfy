/**
 The pieces of a table file: handles that say where a block lies, blocks with their type and
 checksum behind them, and the footer.
 */
module TableFormat {
  import opened Keys
  import opened Coding
  import L = Log

  const MAX_HANDLE: nat := 20
  const FOOTER: nat := 48
  const TRAILER: nat := 5
  const MAGIC: u64 := 0xdb47_7524_8b80_fb57

  datatype Handle = Handle(offset: nat, size: nat)

  predicate HandleOk(h: Handle) {
    h.offset < TWO64 && h.size < TWO64
  }

  function HandleBytes(h: Handle): Bytes {
    Varint(h.offset) + Varint(h.size)
  }

  function GetHandle(b: Bytes): (r: Read<Handle>)
    ensures r.Taken? ==> |r.rest| < |b|
  {
    var offset := Get64(b);
    if offset.Bad? then Bad else
    var size := Get64(offset.rest);
    if size.Bad? then Bad else Taken(Handle(offset.value, size.value), size.rest)
  }

  lemma HandleBack(h: Handle, tail: Bytes)
    requires HandleOk(h)
    ensures GetHandle(HandleBytes(h) + tail) == Taken(h, tail)
  {
    hide Varint, Get64;
    assert HandleBytes(h) + tail == Varint(h.offset) + (Varint(h.size) + tail);
    Back64(h.offset, Varint(h.size) + tail);
    Back64(h.size, tail);
  }

  lemma {:induction false} VarintLength(v: nat, n: nat)
    requires n > 0 && v < Pow128(n)
    ensures |Varint(v)| <= n
  {
    if v >= 128 {
      assert n > 1 && v / 128 < Pow128(n - 1);
      VarintLength(v / 128, n - 1);
    }
  }

  lemma HandleLength(h: Handle)
    requires HandleOk(h)
    ensures |HandleBytes(h)| <= MAX_HANDLE
  {
    Powers();
    VarintLength(h.offset, 10);
    VarintLength(h.size, 10);
  }

  // The footer

  function Zeros(n: nat): (z: Bytes)
    ensures |z| == n
  {
    seq(n, i => 0)
  }

  /** Two handles, padded, and the magic number. */
  function FooterBytes(meta: Handle, index: Handle): (b: Bytes)
    requires HandleOk(meta) && HandleOk(index)
    ensures |b| == FOOTER
  {
    HandleLength(meta);
    HandleLength(index);
    var handles := HandleBytes(meta) + HandleBytes(index);
    handles + Zeros(2 * MAX_HANDLE - |handles|) + Fixed64(MAGIC)
  }

  datatype Footer = Footer(meta: Handle, index: Handle)

  function DecodeFooter(b: Bytes): Option<Footer>
    requires |b| == FOOTER
  {
    if DecodeFixed64(b[FOOTER - 8..]) != MAGIC then None else
    var meta := GetHandle(b);
    if meta.Bad? then None else
    var index := GetHandle(meta.rest);
    if index.Bad? then None else Some(Footer(meta.value, index.value))
  }

  lemma FooterBack(meta: Handle, index: Handle)
    requires HandleOk(meta) && HandleOk(index)
    ensures DecodeFooter(FooterBytes(meta, index)) == Some(Footer(meta, index))
  {
    hide HandleBytes, Fixed64, DecodeFixed64, GetHandle;
    HandleLength(meta);
    HandleLength(index);
    var handles := HandleBytes(meta) + HandleBytes(index);
    var pad := Zeros(2 * MAX_HANDLE - |handles|) + Fixed64(MAGIC);
    var b := FooterBytes(meta, index);
    assert b == HandleBytes(meta) + (HandleBytes(index) + pad);
    HandleBack(meta, HandleBytes(index) + pad);
    HandleBack(index, pad);
    assert b[FOOTER - 8..] == Fixed64(MAGIC) + [];
    Fixed64RoundTrip(MAGIC, []);
  }

  /** A footer without the magic number at its end is refused. */
  lemma FooterMagic(b: Bytes)
    requires |b| == FOOTER && DecodeFooter(b).Some?
    ensures b[FOOTER - 8..] == Fixed64(MAGIC)
  {
    hide Fixed64, DecodeFixed64, GetHandle;
    Fixed64Of(b[FOOTER - 8..]);
  }

  // Blocks in a file

  /** The codec of block contents; compressing may be given up, and then the contents are stored as they are. */
  datatype Codec = Codec(crc: L.Crc, compress: Bytes -> Option<Bytes>, uncompress: Bytes -> Option<Bytes>)

  /** What was compressed can be had back. */
  ghost predicate CodecOk(c: Codec) {
    forall raw :: c.compress(raw).Some? ==> c.uncompress(c.compress(raw).value) == Some(raw)
  }

  /** Block contents with the type and the masked checksum of both. */
  function RawBlock(c: Codec, contents: Bytes, kind: byte): (b: Bytes)
    ensures |b| == |contents| + TRAILER
  {
    contents + ([kind] + Fixed32(L.Mask(c.crc(contents + [kind]))))
  }

  /** Stored compressed only when that saves more than an eighth. */
  predicate WorthIt(raw: Bytes, compressed: Option<Bytes>) {
    compressed.Some? && |compressed.value| < |raw| - |raw| / 8
  }

  /** What is stored for a block, and the type that says how. */
  function Pack(c: Codec, raw: Bytes): (r: (Bytes, byte))
    ensures CodecOk(c) ==> if r.1 == 0 then r.0 == raw else r.1 == 1 && c.uncompress(r.0) == Some(raw)
  {
    if WorthIt(raw, c.compress(raw)) then (c.compress(raw).value, 1) else (raw, 0)
  }

  /** Reading a block: short reads, bad checksums when those are looked at, and bad types are refused. */
  function ReadBlock(c: Codec, file: Bytes, h: Handle, verify: bool): Option<Bytes> {
    var n := h.size;
    if h.offset + n + TRAILER > |file| then None else
    var b := file[h.offset..h.offset + n + TRAILER];
    if verify && L.Unmask(DecodeFixed32(b[n + 1..])) != c.crc(b[..n + 1]) then None
    else if b[n] == 0 then Some(b[..n])
    else if b[n] == 1 then c.uncompress(b[..n])
    else None
  }

  /** At the handle lies a block as it is written. */
  ghost predicate LiesAt(c: Codec, file: Bytes, h: Handle, contents: Bytes, kind: byte) {
    && h.offset + h.size + TRAILER <= |file| && |contents| == h.size
    && file[h.offset..h.offset + h.size + TRAILER] == RawBlock(c, contents, kind)
  }

  /** What stored contents of this type stand for. */
  ghost predicate StandFor(c: Codec, contents: Bytes, kind: byte, raw: Bytes) {
    if kind == 0 then raw == contents else kind == 1 && c.uncompress(contents) == Some(raw)
  }

  /**
   Where checksums are looked at, a block is read only if it lies in the file byte for byte as it was
   written, its checksum included; anything else is refused.
   */
  lemma VerifiedExactly(c: Codec, file: Bytes, h: Handle, raw: Bytes)
    ensures ReadBlock(c, file, h, true) == Some(raw)
            <==> exists contents, kind :: LiesAt(c, file, h, contents, kind) && StandFor(c, contents, kind, raw)
  {
    hide Fixed32, DecodeFixed32, L.Mask, L.Unmask;
    if ReadBlock(c, file, h, true) == Some(raw) {
      var n := h.size;
      var b := file[h.offset..h.offset + n + TRAILER];
      Fixed32Of(b[n + 1..]);
      L.MaskUnmask(DecodeFixed32(b[n + 1..]));
      assert b[..n + 1] == b[..n] + [b[n]] && b == b[..n + 1] + b[n + 1..];
      assert b == RawBlock(c, b[..n], b[n]);
      assert LiesAt(c, file, h, b[..n], b[n]);
    }
    if contents, kind :| LiesAt(c, file, h, contents, kind) && StandFor(c, contents, kind, raw) {
      LyingIsRead(c, file, h, contents, kind, true);
    }
  }

  lemma LyingIsRead(c: Codec, file: Bytes, h: Handle, contents: Bytes, kind: byte, verify: bool)
    requires LiesAt(c, file, h, contents, kind)
    ensures ReadBlock(c, file, h, verify)
         == if kind == 0 then Some(contents) else if kind == 1 then c.uncompress(contents) else None
  {
    hide Fixed32, DecodeFixed32, L.Mask, L.Unmask;
    var n, block := |contents|, RawBlock(c, contents, kind);
    assert block[..n] == contents && block[n] == kind && block[..n + 1] == contents + [kind];
    var crc := L.Mask(c.crc(contents + [kind]));
    assert block[n + 1..] == Fixed32(crc) + [];
    Fixed32RoundTrip(crc, []);
    L.UnmaskMask(c.crc(contents + [kind]));
  }

  /** The handle leads to these contents, whether checksums are looked at or not. */
  ghost predicate Leads(c: Codec, file: Bytes, h: Handle, raw: Bytes) {
    HandleOk(h) && ReadBlock(c, file, h, true) == Some(raw) && ReadBlock(c, file, h, false) == Some(raw)
  }

  lemma LeadsStays(c: Codec, file: Bytes, more: Bytes, h: Handle, raw: Bytes)
    requires Leads(c, file, h, raw)
    ensures Leads(c, file + more, h, raw)
  {
    assert file[h.offset..h.offset + h.size + TRAILER] == (file + more)[h.offset..h.offset + h.size + TRAILER];
  }

  /** A block just written is read back. */
  lemma WrittenLeads(c: Codec, file: Bytes, contents: Bytes, kind: byte, raw: Bytes)
    requires |file| + |contents| < TWO64 && StandFor(c, contents, kind, raw)
    ensures Leads(c, file + RawBlock(c, contents, kind), Handle(|file|, |contents|), raw)
  {
    hide RawBlock;
    var n, all := |contents|, file + RawBlock(c, contents, kind);
    assert all[|file|..|file| + n + TRAILER] == RawBlock(c, contents, kind);
    LyingIsRead(c, all, Handle(|file|, n), contents, kind, true);
    LyingIsRead(c, all, Handle(|file|, n), contents, kind, false);
  }
}
