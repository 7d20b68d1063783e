/**
  The key of a duplicate-reply-cache entry: the memory image of `c_key`, compared with memcmp.
  The image starts with the four bytes of the transaction id and the four bytes of the checksum.
 */
module ReplyCacheKey {
  import opened Common

  // xid, checksum, procedure, protocol, version, length: six words; then a sockaddr_in6.
  const KEY_SIZE := 6 * 4 + 28

  type Key = k: seq<byte> | |k| == KEY_SIZE witness seq(KEY_SIZE, _ => 0)

  function Xid(k: Key): seq<byte> {
    k[..4]
  }

  /** memcmp: the sign of the first differing byte. */
  function MemCmp(a: seq<byte>, b: seq<byte>): int
    requires |a| == |b|
  {
    if a == [] then 0
    else if a[0] < b[0] then -1
    else if a[0] > b[0] then 1
    else MemCmp(a[1..], b[1..])
  }

  predicate Less(a: Key, b: Key) {
    MemCmp(a, b) < 0
  }

  lemma {:induction false} MemCmpZero(a: seq<byte>, b: seq<byte>)
    requires |a| == |b|
    ensures MemCmp(a, b) == 0 <==> a == b
  {
    if a != [] {
      MemCmpZero(a[1..], b[1..]);
      assert a == [a[0]] + a[1..] && b == [b[0]] + b[1..];
    }
  }

  lemma {:induction false} MemCmpFlips(a: seq<byte>, b: seq<byte>)
    requires |a| == |b|
    ensures MemCmp(a, b) == -MemCmp(b, a)
  {
    if a != [] {
      MemCmpFlips(a[1..], b[1..]);
    }
  }

  lemma {:induction false} MemCmpTransitive(a: seq<byte>, b: seq<byte>, c: seq<byte>)
    requires |a| == |b| == |c|
    requires MemCmp(a, b) < 0 && MemCmp(b, c) < 0
    ensures MemCmp(a, c) < 0
  {
    if a[0] == b[0] == c[0] {
      MemCmpTransitive(a[1..], b[1..], c[1..]);
    }
  }

  /** Two images are in order as the first byte in which they differ. */
  lemma {:induction false} MemCmpMeans(a: seq<byte>, b: seq<byte>, k: nat)
    requires k < |a| == |b| && a[..k] == b[..k] && a[k] != b[k]
    ensures if a[k] < b[k] then MemCmp(a, b) < 0 else MemCmp(a, b) > 0
  {
    if k > 0 {
      assert a[0] == a[..k][0] == b[0];
      assert a[1..][..k - 1] == a[..k][1..] && b[1..][..k - 1] == b[..k][1..];
      MemCmpMeans(a[1..], b[1..], k - 1);
    }
  }

  /** Byte order on keys is a strict total order, so a search tree over it finds every key. */
  lemma LessIsStrictTotalOrder(a: Key, b: Key, c: Key)
    ensures !Less(a, a)
    ensures Less(a, b) && Less(b, c) ==> Less(a, c)
    ensures Less(a, b) || a == b || Less(b, a)
    ensures !(Less(a, b) && Less(b, a))
  {
    MemCmpZero(a, a);
    MemCmpZero(a, b);
    MemCmpFlips(a, b);
    if Less(a, b) && Less(b, c) {
      MemCmpTransitive(a, b, c);
    }
  }
}
