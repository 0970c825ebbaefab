/**
 User keys, internal keys and their orders.

 A user key is a byte string under the bytewise comparator. `Compare` is that comparator.
 `Ord` embeds the bytewise order in the reals, so that every other module compares keys by
 comparing numbers; `CompareIsOrd` says that the two agree on all keys.
 */
module Keys {

  type byte = x: int | 0 <= x < 256
  type Bytes = seq<byte>

  datatype Option<+T> = None | Some(value: T)

  /** Three-way bytewise comparison: the first differing byte decides, then the length. */
  function Compare(a: Bytes, b: Bytes): int
  {
    if a == [] then (if b == [] then 0 else -1)
    else if b == [] then 1
    else if a[0] < b[0] then -1
    else if a[0] > b[0] then 1
    else Compare(a[1..], b[1..])
  }

  /** Reads a key as the digits of a number in [0, 1). */
  function Rank(k: Bytes): (r: real)
    ensures 0.0 <= r < 1.0
    ensures k != [] ==> r > 0.0
  {
    if k == [] then 0.0 else (k[0] as real + 1.0 + Rank(k[1..])) / 257.0
  }

  lemma {:induction false} CompareIsRank(a: Bytes, b: Bytes)
    ensures Compare(a, b) < 0 <==> Rank(a) < Rank(b)
    ensures Compare(a, b) > 0 <==> Rank(a) > Rank(b)
    ensures Rank(a) == Rank(b) <==> a == b
    decreases |a|
  {
    if a != [] && b != [] {
      CompareIsRank(a[1..], b[1..]);
      if a[0] == b[0] {
        assert a == [a[0]] + a[1..] && b == [b[0]] + b[1..];
      } else {
        assert a[0] as real + 1.0 <= b[0] as real || b[0] as real + 1.0 <= a[0] as real;
      }
    }
  }

  /** The key with a given rank. */
  ghost function Unrank(r: real): Bytes
  {
    if k: Bytes :| Rank(k) == r then k else []
  }

  /** The position of a key in the bytewise order; distinct keys have distinct positions. */
  function Ord(k: Bytes): (r: real)
    ensures Unrank(r) == k
  {
    assert Unrank(Rank(k)) == k by {
      CompareIsRank(k, Unrank(Rank(k)));
    }
    Rank(k)
  }

  lemma CompareIsOrd(a: Bytes, b: Bytes)
    ensures Compare(a, b) < 0 <==> Ord(a) < Ord(b)
    ensures Compare(a, b) == 0 <==> a == b
    ensures Compare(a, b) > 0 <==> Ord(a) > Ord(b)
  {
    CompareIsRank(a, b);
  }

  datatype Kind = Deletion | Value

  /** An internal key: user key, sequence number and value type. */
  datatype IKey = IKey(user: Bytes, seqno: nat, kind: Kind)

  /** The packed trailer: sequence number shifted left by eight bits, then the type. */
  function Tag(k: IKey): nat
  {
    k.seqno * 256 + if k.kind.Value? then 1 else 0
  }

  /** Internal keys ascend by user key, then descend by packed sequence number and type. */
  predicate Less(a: IKey, b: IKey)
  {
    Ord(a.user) < Ord(b.user) || (a.user == b.user && Tag(a) > Tag(b))
  }

  predicate AtMost(a: IKey, b: IKey)
  {
    !Less(b, a)
  }

  lemma LessThenAtMost(a: IKey, b: IKey, c: IKey)
    requires Less(a, b) && AtMost(b, c)
    ensures Less(a, c)
  {
  }

  lemma AtMostThenLess(a: IKey, b: IKey, c: IKey)
    requires AtMost(a, b) && Less(b, c)
    ensures Less(a, c)
  {
  }

  const MAX_SEQUENCE: nat := 0xFF_FFFF_FFFF_FFFF

  /** The first internal key, in the internal order, of `user` visible at `snapshot`. */
  function LookupKey(user: Bytes, snapshot: nat): IKey
  {
    IKey(user, snapshot, Value)
  }

  datatype Entry = Entry(key: IKey, value: Bytes)

  /** Entries strictly ascend in the internal order. */
  ghost predicate Sorted(es: seq<Entry>)
  {
    forall i, j :: 0 <= i < j < |es| ==> Less(es[i].key, es[j].key)
  }
}
