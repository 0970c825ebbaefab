/**
 Internal keys as bytes: the user key, then the sequence number and the type packed into eight bytes.
 */
module InternalKeys {
  import opened Keys
  import opened Coding

  /** The sequence number leaves eight bits for the type. */
  predicate KeyOk(k: IKey) {
    k.seqno <= MAX_SEQUENCE
  }

  function KeyBytes(k: IKey): (b: Bytes)
    ensures |b| == |k.user| + 8
  {
    k.user + Fixed64(Tag(k) % TWO64)
  }

  /** The user key of an encoded key; bytes too short to be one stand for themselves. */
  function UserOf(b: Bytes): Bytes {
    if |b| < 8 then b else b[..|b| - 8]
  }

  function TagOf(b: Bytes): nat {
    if |b| < 8 then 0 else DecodeFixed64(b[|b| - 8..])
  }

  lemma KeyParts(k: IKey)
    requires KeyOk(k)
    ensures UserOf(KeyBytes(k)) == k.user && TagOf(KeyBytes(k)) == Tag(k)
  {
    var b := KeyBytes(k);
    hide Fixed64, DecodeFixed64;
    assert b[..|b| - 8] == k.user && b[|b| - 8..] == Fixed64(Tag(k)) + [];
    Fixed64RoundTrip(Tag(k), []);
  }

  /** The comparator of encoded keys: by user key, then newest first. */
  predicate KeyLess(a: Bytes, b: Bytes) {
    Ord(UserOf(a)) < Ord(UserOf(b)) || (UserOf(a) == UserOf(b) && TagOf(a) > TagOf(b))
  }

  /** Encoding keeps the order. */
  lemma KeyLessIsLess(a: IKey, b: IKey)
    requires KeyOk(a) && KeyOk(b)
    ensures KeyLess(KeyBytes(a), KeyBytes(b)) <==> Less(a, b)
  {
    hide KeyBytes, UserOf, TagOf, Tag;
    KeyParts(a);
    KeyParts(b);
  }

  lemma KeyLessOrders(a: Bytes, b: Bytes, c: Bytes)
    requires KeyLess(a, b) && KeyLess(b, c)
    ensures KeyLess(a, c)
  {
    hide UserOf, TagOf;
  }

  /** Bytes that are no key, or whose type is none, are refused. */
  function ParseKey(b: Bytes): (r: Option<IKey>)
    ensures r.Some? ==> KeyOk(r.value)
  {
    if |b| < 8 || TagOf(b) % 256 > 1 then None
    else
      TagFits(b);
      Some(IKey(UserOf(b), TagOf(b) / 256, if TagOf(b) % 256 == 1 then Value else Deletion))
  }

  lemma TagFits(b: Bytes)
    ensures TagOf(b) < TWO64
  {
  }

  lemma ParseBack(k: IKey)
    requires KeyOk(k)
    ensures ParseKey(KeyBytes(k)) == Some(k)
  {
    hide KeyBytes, UserOf, TagOf;
    KeyParts(k);
    TagFits(KeyBytes(k));
  }
}
