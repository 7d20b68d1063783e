/**
  XDR (RFC 4506) as codecs and ways to combine them.  A codec encodes a value, or refuses it as the
  library routines refuse an oversized string, decodes one value from the front of a byte string, returning it
  with the bytes that are left, and tells whether the bytes it decodes are the ones it would have written.
 */
module Xdr {
  import opened Common

  type uint32 = x: int | 0 <= x < 0x1_0000_0000

  type uint64 = x: int | 0 <= x < 0x1_0000_0000_0000_0000

  type Bytes = seq<byte>

  /** A decoded value and the bytes after it, or nothing when the input does not decode. */
  type Got<+T> = Option<(T, Bytes)>

  datatype Codec<!T> = Codec(enc: T -> Option<Bytes>, dec: Bytes -> Got<T>, canon: Bytes -> bool)

  // ---------------------------------------------------------------- the laws

  /** Whatever can be encoded decodes to itself and leaves any following bytes untouched. */
  ghost predicate Inverse<T(!new)>(c: Codec<T>) {
    forall v, rest: Bytes :: c.enc(v).Some? ==> c.dec(c.enc(v).value + rest) == Some((v, rest))
  }

  predicate WholeUnits(b: Bytes) {
    |b| % 4 == 0
  }

  /** Encodings fill whole four-byte units. */
  ghost predicate Aligned<T(!new)>(c: Codec<T>) {
    forall v :: c.enc(v).Some? ==> WholeUnits(c.enc(v).value)
  }

  /** Decoding never leaves more bytes than it was given. */
  ghost predicate Shrinking<T(!new)>(c: Codec<T>) {
    forall b :: c.dec(b).Some? ==> |c.dec(b).value.1| <= |b|
  }

  /** Encoding v in front of rest gives b. */
  predicate Writes<T>(c: Codec<T>, v: T, rest: Bytes, b: Bytes) {
    c.enc(v).Some? && c.enc(v).value + rest == b
  }

  /** Encoding again what b decodes to gives b exactly when b is canonical. */
  ghost predicate Canonical<T(!new)>(c: Codec<T>) {
    forall b :: c.dec(b).Some? ==> (c.canon(b) <==> Writes(c, c.dec(b).value.0, c.dec(b).value.1, b))
  }

  ghost predicate Lawful<T(!new)>(c: Codec<T>) {
    Inverse(c) && Aligned(c) && Shrinking(c) && Canonical(c)
  }

  /** Distinct values have distinct encodings, and no encoding is a prefix of another. */
  lemma PrefixFree<T(!new)>(c: Codec<T>, v: T, w: T, s: Bytes, t: Bytes)
    requires Lawful(c) && c.enc(v).Some? && c.enc(w).Some?
    requires c.enc(v).value + s == c.enc(w).value + t
    ensures v == w && s == t
  {
    assert c.dec(c.enc(v).value + s) == Some((v, s));
    assert c.dec(c.enc(w).value + t) == Some((w, t));
  }

  lemma Units(a: Bytes, b: Bytes)
    requires WholeUnits(a) && WholeUnits(b)
    ensures WholeUnits(a + b)
  {
  }

  /** What a decoded x and bytes e after it were written from, part by part. */
  lemma WritesThen<A(!new)>(a: Codec<A>, x: A, s: Bytes, s1: Bytes, e: Bytes, s2: Bytes)
    requires Inverse(a) && a.dec(s) == Some((x, s1)) && a.enc(x).Some?
    ensures a.enc(x).value + e + s2 == s <==> Writes(a, x, s1, s) && e + s2 == s1
  {
    var ea := a.enc(x).value;
    assert ea + e + s2 == ea + (e + s2);
    if ea + e + s2 == s {
      assert a.dec(ea + (e + s2)) == Some((x, e + s2));
    }
  }

  // ---------------------------------------------------------------- integers and booleans (sections 4.1-4.5)

  function Word(b0: int, b1: int, b2: int, b3: int): int {
    b0 * 0x100_0000 + b1 * 0x1_0000 + b2 * 0x100 + b3
  }

  function EncU32(v: uint32): Option<Bytes> {
    Some([v / 0x100_0000, v / 0x1_0000 % 256, v / 0x100 % 256, v % 256])
  }

  function DecU32(b: Bytes): Got<uint32> {
    if |b| < 4 then None else Some((Word(b[0], b[1], b[2], b[3]), b[4..]))
  }

  function U32(): Codec<uint32> {
    Codec(EncU32, DecU32, (_: Bytes) => true)
  }

  lemma WordOfParts(v: uint32)
    ensures Word(v / 0x100_0000, v / 0x1_0000 % 256, v / 0x100 % 256, v % 256) == v
  {
  }

  lemma PartsOfWord(a: byte, b: byte, c: byte, d: byte)
    ensures EncU32(Word(a, b, c, d)).value == [a, b, c, d]
  {
    var v := Word(a, b, c, d);
    assert v / 0x100_0000 == a && v / 0x1_0000 == a * 0x100 + b && v / 0x100 == a * 0x1_0000 + b * 0x100 + c;
  }

  lemma Four(a: byte, b: byte, c: byte, d: byte, rest: Bytes)
    ensures DecU32([a, b, c, d] + rest) == Some((Word(a, b, c, d), rest))
  {
    assert ([a, b, c, d] + rest)[4..] == rest;
  }

  lemma U32Inverse(v: uint32, rest: Bytes)
    ensures DecU32(EncU32(v).value + rest) == Some((v, rest))
  {
    WordOfParts(v);
    Four(v / 0x100_0000, v / 0x1_0000 % 256, v / 0x100 % 256, v % 256, rest);
  }

  lemma U32Canonical(b: Bytes)
    requires |b| >= 4
    ensures EncU32(Word(b[0], b[1], b[2], b[3])).value + b[4..] == b
  {
    PartsOfWord(b[0], b[1], b[2], b[3]);
    assert b == [b[0], b[1], b[2], b[3]] + b[4..];
  }

  lemma U32Lawful()
    ensures Lawful(U32())
  {
    var c := U32();
    forall v: uint32, rest: Bytes | c.enc(v).Some?
      ensures c.dec(c.enc(v).value + rest) == Some((v, rest))
    {
      U32Inverse(v, rest);
    }
    forall b: Bytes | c.dec(b).Some?
      ensures Writes(c, c.dec(b).value.0, c.dec(b).value.1, b)
    {
      U32Canonical(b);
    }
  }

  function EncBool(u: Codec<uint32>, v: bool): Option<Bytes> {
    u.enc(if v then 1 else 0)
  }

  function DecBool(u: Codec<uint32>, s: Bytes): Got<bool> {
    var (w, s1) :- u.dec(s);
    Some((w != 0, s1))
  }

  function CanonBool(u: Codec<uint32>, s: Bytes): bool {
    u.canon(s) && (u.dec(s).Some? ==> u.dec(s).value.0 <= 1)
  }

  /** Encoded as one or zero; any nonzero word reads as true, and only one is canonical. */
  function BoolOver(u: Codec<uint32>): Codec<bool> {
    Codec((v: bool) => EncBool(u, v), (s: Bytes) => DecBool(u, s), (s: Bytes) => CanonBool(u, s))
  }

  function Bool(): Codec<bool> {
    BoolOver(U32())
  }

  lemma BoolCanonical(u: Codec<uint32>, s: Bytes)
    requires Lawful(u) && DecBool(u, s).Some?
    ensures CanonBool(u, s) <==> Writes(BoolOver(u), DecBool(u, s).value.0, DecBool(u, s).value.1, s)
  {
    var (w, s1) := u.dec(s).value;
    var w' := if w != 0 then 1 else 0;
    if Writes(u, w', s1, s) {
      assert u.dec(u.enc(w').value + s1) == Some((w', s1));
    }
  }

  lemma BoolOverLawful(u: Codec<uint32>)
    requires Lawful(u)
    ensures Lawful(BoolOver(u))
  {
    forall s: Bytes | DecBool(u, s).Some?
      ensures CanonBool(u, s) <==> Writes(BoolOver(u), DecBool(u, s).value.0, DecBool(u, s).value.1, s)
    {
      BoolCanonical(u, s);
    }
  }

  lemma BoolLawful()
    ensures Lawful(Bool())
  {
    U32Lawful();
    BoolOverLawful(U32());
  }

  function Join64(p: (uint32, uint32)): uint64 {
    p.0 * 0x1_0000_0000 + p.1
  }

  function Split64(v: uint64): Option<(uint32, uint32)> {
    Some((v / 0x1_0000_0000, v % 0x1_0000_0000))
  }

  function U64(): Codec<uint64> {
    Conv(Pair(U32(), U32()), Join64, Split64)
  }

  lemma Halves64(a: int, b: int)
    requires 0 <= b < 0x1_0000_0000
    ensures (a * 0x1_0000_0000 + b) / 0x1_0000_0000 == a && (a * 0x1_0000_0000 + b) % 0x1_0000_0000 == b
  {
  }

  lemma Join64Restores()
    ensures Restores(Join64, Split64)
  {
    forall x: (uint32, uint32)
      ensures Split64(Join64(x)) == Some(x)
    {
      Halves64(x.0, x.1);
    }
  }

  lemma U64Lawful()
    ensures Lawful(U64())
  {
    U32Lawful();
    PairLawful(U32(), U32());
    Join64Restores();
    ConvLawful(Pair(U32(), U32()), Join64, Split64);
  }

  // ---------------------------------------------------------------- opaque data and strings (sections 4.9-4.11)

  function Padding(n: nat): (p: nat)
    ensures p < 4 && (n + p) % 4 == 0
  {
    (4 - n % 4) % 4
  }

  function Zeros(n: nat): Bytes {
    seq(n, _ => 0)
  }

  function Padded(v: Bytes): Bytes {
    v + Zeros(Padding(|v|))
  }

  /** The padding is skipped, whatever it holds. */
  function DecPadded(b: Bytes, n: nat): Got<Bytes> {
    if |b| < n + Padding(n) then None else Some((b[..n], b[n + Padding(n)..]))
  }

  function ZeroPadded(b: Bytes, n: nat): bool {
    n + Padding(n) <= |b| && b[n..n + Padding(n)] == Zeros(Padding(n))
  }

  lemma PaddedInverse(v: Bytes, rest: Bytes)
    ensures DecPadded(Padded(v) + rest, |v|) == Some((v, rest))
    ensures WholeUnits(Padded(v))
  {
    var b := Padded(v) + rest;
    assert b[..|v|] == v;
    assert b[|v| + Padding(|v|)..] == rest;
  }

  lemma PaddedCanonical(b: Bytes, n: nat)
    requires n + Padding(n) <= |b|
    ensures ZeroPadded(b, n) <==> Padded(b[..n]) + b[n + Padding(n)..] == b
  {
    var p := Padding(n);
    assert b == b[..n] + b[n..n + p] + b[n + p..];
    if Padded(b[..n]) + b[n + p..] == b {
      assert b[n..n + p] == (b[..n] + Zeros(p) + b[n + p..])[n..n + p] == Zeros(p);
    }
  }

  /** Fixed-length opaque data. */
  function Opaque(n: nat): Codec<Bytes> {
    Codec((v: Bytes) => if |v| == n then Some(Padded(v)) else None, (b: Bytes) => DecPadded(b, n), (b: Bytes) => ZeroPadded(b, n))
  }

  lemma OpaqueLawful(n: nat)
    ensures Lawful(Opaque(n))
  {
    forall v: Bytes, rest: Bytes | |v| == n
      ensures DecPadded(Padded(v) + rest, n) == Some((v, rest)) && WholeUnits(Padded(v))
    {
      PaddedInverse(v, rest);
    }
    forall b: Bytes | DecPadded(b, n).Some?
      ensures ZeroPadded(b, n) <==> Writes(Opaque(n), b[..n], b[n + Padding(n)..], b)
    {
      PaddedCanonical(b, n);
    }
  }

  function EncCounted(u: Codec<uint32>, v: Bytes, max: uint32): Option<Bytes> {
    if |v| > max then None
    else
      var n :- u.enc(|v|);
      Some(n + Padded(v))
  }

  function DecCounted(u: Codec<uint32>, b: Bytes, max: uint32): Got<Bytes> {
    var (n, b1) :- u.dec(b);
    if n > max then None else DecPadded(b1, n)
  }

  function CanonCounted(u: Codec<uint32>, b: Bytes): bool {
    u.canon(b) && (u.dec(b).Some? ==> ZeroPadded(u.dec(b).value.1, u.dec(b).value.0))
  }

  /** Counted bytes of at most max, as xdr_bytes writes them; u carries the count. */
  function Counted(u: Codec<uint32>, max: uint32): Codec<Bytes> {
    Codec((v: Bytes) => EncCounted(u, v, max), (b: Bytes) => DecCounted(u, b, max), (b: Bytes) => CanonCounted(u, b))
  }

  lemma CountedInverse(u: Codec<uint32>, v: Bytes, max: uint32, rest: Bytes)
    requires Lawful(u) && EncCounted(u, v, max).Some?
    ensures DecCounted(u, EncCounted(u, v, max).value + rest, max) == Some((v, rest))
  {
    PaddedInverse(v, rest);
    var n := u.enc(|v|).value;
    assert n + Padded(v) + rest == n + (Padded(v) + rest);
  }

  lemma CountedAligned(u: Codec<uint32>, v: Bytes, max: uint32)
    requires Lawful(u) && EncCounted(u, v, max).Some?
    ensures WholeUnits(EncCounted(u, v, max).value)
  {
    PaddedInverse(v, []);
    Units(u.enc(|v|).value, Padded(v));
  }

  lemma CountedShrinks(u: Codec<uint32>, b: Bytes, max: uint32)
    requires Shrinking(u)
    ensures DecCounted(u, b, max).Some? ==> |DecCounted(u, b, max).value.1| <= |b|
  {
  }

  lemma CountedCanonical(u: Codec<uint32>, b: Bytes, max: uint32)
    requires Lawful(u) && DecCounted(u, b, max).Some?
    ensures var (v, rest) := DecCounted(u, b, max).value;
            CanonCounted(u, b) <==> Writes(Counted(u, max), v, rest, b)
  {
    var (n, b1) := u.dec(b).value;
    var (v, rest) := DecPadded(b1, n).value;
    PaddedCanonical(b1, n);
    if u.enc(n).Some? {
      WritesThen(u, n, b, b1, Padded(v), rest);
    }
  }

  lemma CountedLawful(u: Codec<uint32>, max: uint32)
    requires Lawful(u)
    ensures Lawful(Counted(u, max))
  {
    var c := Counted(u, max);
    forall v: Bytes, rest: Bytes | c.enc(v).Some?
      ensures c.dec(c.enc(v).value + rest) == Some((v, rest))
    {
      CountedInverse(u, v, max, rest);
    }
    forall v: Bytes | c.enc(v).Some?
      ensures WholeUnits(c.enc(v).value)
    {
      CountedAligned(u, v, max);
    }
    forall b: Bytes | c.dec(b).Some?
      ensures |c.dec(b).value.1| <= |b| && (c.canon(b) <==> Writes(c, c.dec(b).value.0, c.dec(b).value.1, b))
    {
      CountedShrinks(u, b, max);
      CountedCanonical(u, b, max);
    }
  }

  /** What a C string holding these bytes means: the part before the first zero byte. */
  function CString(v: Bytes): Bytes {
    if v == [] || v[0] == 0 then [] else [v[0]] + CString(v[1..])
  }

  lemma {:induction false} CStringId(v: Bytes)
    ensures CString(v) == v <==> 0 !in v
  {
    if v != [] {
      CStringId(v[1..]);
      assert v == [v[0]] + v[1..];
    }
  }

  lemma {:induction false} CStringClean(v: Bytes)
    ensures 0 !in CString(v)
  {
    if v != [] && v[0] != 0 {
      CStringClean(v[1..]);
    }
  }

  /** A value with a zero byte is not a C string, so there is nothing to encode. */
  function EncString(c: Codec<Bytes>, v: Bytes): Option<Bytes> {
    if 0 in v then None else c.enc(v)
  }

  function DecString(c: Codec<Bytes>, b: Bytes): Got<Bytes> {
    var (v, b1) :- c.dec(b);
    Some((CString(v), b1))
  }

  function CanonString(c: Codec<Bytes>, b: Bytes): bool {
    c.canon(b) && (c.dec(b).Some? ==> 0 !in c.dec(b).value.0)
  }

  /** xdr_string: counted bytes c read as a C string. */
  function Text(c: Codec<Bytes>): Codec<Bytes> {
    Codec((v: Bytes) => EncString(c, v), (b: Bytes) => DecString(c, b), (b: Bytes) => CanonString(c, b))
  }

  lemma TextCanonical(c: Codec<Bytes>, b: Bytes)
    requires Lawful(c) && c.dec(b).Some?
    ensures var (v, rest) := c.dec(b).value;
            CanonString(c, b) <==> Writes(Text(c), CString(v), rest, b)
  {
    var (v, rest) := c.dec(b).value;
    CStringId(v);
    CStringClean(v);
    if Writes(c, CString(v), rest, b) {
      assert c.dec(c.enc(CString(v)).value + rest) == Some((CString(v), rest));
    }
  }

  lemma TextLawful(c: Codec<Bytes>)
    requires Lawful(c)
    ensures Lawful(Text(c))
  {
    forall v: Bytes, rest: Bytes | EncString(c, v).Some?
      ensures DecString(c, EncString(c, v).value + rest) == Some((v, rest))
    {
      CStringId(v);
    }
    forall b: Bytes | c.dec(b).Some?
      ensures CanonString(c, b) <==> Writes(Text(c), CString(c.dec(b).value.0), c.dec(b).value.1, b)
    {
      TextCanonical(c, b);
    }
  }

  function String(max: uint32): Codec<Bytes> {
    Text(Counted(U32(), max))
  }

  lemma StringLawful(max: uint32)
    ensures Lawful(String(max))
  {
    U32Lawful();
    CountedLawful(U32(), max);
    TextLawful(Counted(U32(), max));
  }

  /** A C string of at most max bytes. */
  predicate FitsString(v: Bytes, max: uint32) {
    0 !in v && |v| <= max
  }

  lemma StringAccepts(v: Bytes, max: uint32)
    ensures Accepts(String(max), v) <==> FitsString(v, max)
  {
  }

  // ---------------------------------------------------------------- what is read, byte by byte

  /** An unsigned integer takes four bytes, the most significant first. */
  lemma U32Reads(b: Bytes)
    ensures U32().dec(b).Some? <==> |b| >= 4
    ensures |b| >= 4 ==> U32().dec(b) == Some((Word(b[0], b[1], b[2], b[3]), b[4..]))
  {
  }

  /** A boolean is false when its four bytes are zero, and true whatever else they are. */
  lemma BoolReads(b: Bytes)
    ensures Bool().dec(b).Some? <==> |b| >= 4
    ensures |b| >= 4 ==> Bool().dec(b) == Some((!(b[0] == b[1] == b[2] == b[3] == 0), b[4..]))
  {
    U32Reads(b);
  }

  lemma U64Reads(b: Bytes)
    ensures U64().dec(b).Some? <==> |b| >= 8
    ensures |b| >= 8 ==> U64().dec(b) == Some((Word(b[0], b[1], b[2], b[3]) * 4294967296 + Word(b[4], b[5], b[6], b[7]), b[8..]))
  {
    U32Reads(b);
    if |b| >= 4 {
      U32Reads(b[4..]);
      assert |b| >= 8 ==> b[4..][4..] == b[8..];
    }
  }

  /** Opaque data ends at its length rounded up to four, and what fills it up is not looked at. */
  lemma OpaqueReads(b: Bytes, n: nat)
    ensures Opaque(n).dec(b) == if |b| < (n + 3) / 4 * 4 then None else Some((b[..n], b[(n + 3) / 4 * 4..]))
  {
  }

  /** Counted bytes are refused past the limit and past the end of what there is. */
  lemma CountedReads(b: Bytes, max: uint32)
    ensures |b| < 4 ==> Counted(U32(), max).dec(b).None?
    ensures |b| >= 4 ==> var n := Word(b[0], b[1], b[2], b[3]);
                         Counted(U32(), max).dec(b) ==
                         if n > max || |b| < 4 + (n + 3) / 4 * 4 then None
                         else Some((b[4..4 + n], b[4 + (n + 3) / 4 * 4..]))
  {
    U32Reads(b);
    if |b| >= 4 {
      var n := Word(b[0], b[1], b[2], b[3]);
      OpaqueReads(b[4..], n);
      if |b| >= 4 + (n + 3) / 4 * 4 {
        assert b[4..][..n] == b[4..4 + n];
        assert b[4..][(n + 3) / 4 * 4..] == b[4 + (n + 3) / 4 * 4..];
      }
    }
  }

  lemma {:induction false} CStringIs(v: Bytes)
    ensures CString(v) <= v && 0 !in CString(v) && (|CString(v)| < |v| ==> v[|CString(v)|] == 0)
  {
    if v != [] && v[0] != 0 {
      CStringIs(v[1..]);
    }
  }

  /** A string is what stands before the first zero among its counted bytes, all of which are taken. */
  lemma StringReads(b: Bytes, max: uint32)
    ensures String(max).dec(b).Some? <==> Counted(U32(), max).dec(b).Some?
    ensures String(max).dec(b).Some? ==>
              var (v, rest) := String(max).dec(b).value;
              var (w, after) := Counted(U32(), max).dec(b).value;
              rest == after && v <= w && 0 !in v && (|v| < |w| ==> w[|v|] == 0)
  {
    if Counted(U32(), max).dec(b).Some? {
      CStringIs(Counted(U32(), max).dec(b).value.0);
    }
  }

  // ---------------------------------------------------------------- structures (section 4.14)

  function EncPair<A, B>(a: Codec<A>, b: Codec<B>, v: (A, B)): Option<Bytes> {
    var x :- a.enc(v.0);
    var y :- b.enc(v.1);
    Some(x + y)
  }

  /** One field after the other; the first that fails ends the decoding. */
  function DecPair<A, B>(a: Codec<A>, b: Codec<B>, s: Bytes): Got<(A, B)> {
    var (x, s1) :- a.dec(s);
    var (y, s2) :- b.dec(s1);
    Some(((x, y), s2))
  }

  function CanonPair<A, B>(a: Codec<A>, b: Codec<B>, s: Bytes): bool {
    a.canon(s) && (a.dec(s).Some? ==> b.canon(a.dec(s).value.1))
  }

  function Pair<A, B>(a: Codec<A>, b: Codec<B>): Codec<(A, B)> {
    Codec((v: (A, B)) => EncPair(a, b, v), (s: Bytes) => DecPair(a, b, s), (s: Bytes) => CanonPair(a, b, s))
  }

  lemma PairInverse<A(!new), B(!new)>(a: Codec<A>, b: Codec<B>, v: (A, B), rest: Bytes)
    requires Inverse(a) && Inverse(b) && EncPair(a, b, v).Some?
    ensures DecPair(a, b, EncPair(a, b, v).value + rest) == Some((v, rest))
  {
    var x, y := a.enc(v.0).value, b.enc(v.1).value;
    assert (x + y) + rest == x + (y + rest);
  }

  lemma PairCanonical<A(!new), B(!new)>(a: Codec<A>, b: Codec<B>, s: Bytes)
    requires Inverse(a) && Canonical(a) && Canonical(b) && DecPair(a, b, s).Some?
    ensures var (v, rest) := DecPair(a, b, s).value;
            CanonPair(a, b, s) <==> Writes(Pair(a, b), v, rest, s)
  {
    var (x, s1) := a.dec(s).value;
    var (y, s2) := b.dec(s1).value;
    if a.enc(x).Some? && b.enc(y).Some? {
      WritesThen(a, x, s, s1, b.enc(y).value, s2);
    }
  }

  lemma PairLawful<A(!new), B(!new)>(a: Codec<A>, b: Codec<B>)
    requires Lawful(a) && Lawful(b)
    ensures Lawful(Pair(a, b))
  {
    var c := Pair(a, b);
    forall v: (A, B), rest: Bytes | c.enc(v).Some?
      ensures c.dec(c.enc(v).value + rest) == Some((v, rest))
    {
      PairInverse(a, b, v, rest);
    }
    forall v: (A, B) | c.enc(v).Some?
      ensures WholeUnits(c.enc(v).value)
    {
      Units(a.enc(v.0).value, b.enc(v.1).value);
    }
    forall s: Bytes | c.dec(s).Some?
      ensures c.canon(s) <==> Writes(c, c.dec(s).value.0, c.dec(s).value.1, s)
    {
      PairCanonical(a, b, s);
    }
  }

  function EncConv<A, B>(c: Codec<A>, from: B -> Option<A>, v: B): Option<Bytes> {
    var x :- from(v);
    c.enc(x)
  }

  function DecConv<A, B>(c: Codec<A>, to: A -> B, s: Bytes): Got<B> {
    var (x, s1) :- c.dec(s);
    Some((to(x), s1))
  }

  /** The encoding of another type, for the values that from can express in it. */
  function Conv<A, B>(c: Codec<A>, to: A -> B, from: B -> Option<A>): Codec<B> {
    Codec((v: B) => EncConv(c, from, v), (s: Bytes) => DecConv(c, to, s), c.canon)
  }

  /** to and from undo each other wherever from has a value. */
  ghost predicate Restores<A(!new), B(!new)>(to: A -> B, from: B -> Option<A>) {
    && (forall v :: from(v).Some? ==> to(from(v).value) == v)
    && (forall x :: from(to(x)) == Some(x))
  }

  lemma ConvLawful<A(!new), B(!new)>(c: Codec<A>, to: A -> B, from: B -> Option<A>)
    requires Lawful(c) && Restores(to, from)
    ensures Lawful(Conv(c, to, from))
  {
    var d := Conv(c, to, from);
    forall s: Bytes | d.dec(s).Some?
      ensures d.canon(s) <==> Writes(d, d.dec(s).value.0, d.dec(s).value.1, s)
    {
      assert from(to(c.dec(s).value.0)) == Some(c.dec(s).value.0);
    }
  }

  datatype Void = Void

  /** The empty structure. */
  function Nothing(): Codec<Void> {
    Codec((_: Void) => Some([]), (s: Bytes) => Some((Void, s)), (_: Bytes) => true)
  }

  lemma NothingLawful()
    ensures Lawful(Nothing())
  {
    forall v: Void, rest: Bytes
      ensures Nothing().dec(Nothing().enc(v).value + rest) == Some((v, rest))
      ensures Writes(Nothing(), v, rest, rest)
    {
      assert v.Void? && Nothing().enc(v).value + rest == rest;
    }
  }

  /** The arm of a discriminant that the union does not have. */
  function Refuse<A>(): Codec<A> {
    Codec((_: A) => None, (_: Bytes) => None, (_: Bytes) => false)
  }

  lemma RefuseLawful<A(!new)>()
    ensures Lawful(Refuse<A>())
  {
  }

  // ---------------------------------------------------------------- unions and optional data (sections 4.15, 4.19)

  function EncOptional<A>(t: Codec<bool>, c: Codec<A>, v: Option<A>): Option<Bytes> {
    match v
    case None => t.enc(false)
    case Some(x) => EncPair(t, c, (true, x))
  }

  function DecOptional<A>(t: Codec<bool>, c: Codec<A>, s: Bytes): Got<Option<A>> {
    var (more, s1) :- t.dec(s);
    if !more then Some((None, s1))
    else
      var (x, s2) :- c.dec(s1);
      Some((Some(x), s2))
  }

  function CanonOptional<A>(t: Codec<bool>, c: Codec<A>, s: Bytes): bool {
    t.canon(s) && (t.dec(s).Some? && t.dec(s).value.0 ==> c.canon(t.dec(s).value.1))
  }

  /** A union switched by the boolean that t carries, with nothing in its false arm. */
  function Optional<A>(t: Codec<bool>, c: Codec<A>): Codec<Option<A>> {
    Codec((v: Option<A>) => EncOptional(t, c, v), (s: Bytes) => DecOptional(t, c, s), (s: Bytes) => CanonOptional(t, c, s))
  }

  /** Optional data: after a zero nothing, after any other word one value. */
  lemma OptionalReads<A(!new)>(c: Codec<A>, b: Bytes)
    ensures |b| < 4 ==> Optional(Bool(), c).dec(b).None?
    ensures |b| >= 4 ==>
              Optional(Bool(), c).dec(b) ==
              if b[0] == b[1] == b[2] == b[3] == 0 then Some((None, b[4..]))
              else if c.dec(b[4..]).None? then None
              else Some((Some(c.dec(b[4..]).value.0), c.dec(b[4..]).value.1))
  {
    BoolReads(b);
  }

  lemma OptionalInverse<A(!new)>(t: Codec<bool>, c: Codec<A>, v: Option<A>, rest: Bytes)
    requires Inverse(t) && Inverse(c) && EncOptional(t, c, v).Some?
    ensures DecOptional(t, c, EncOptional(t, c, v).value + rest) == Some((v, rest))
  {
    if v.Some? {
      var x, y := t.enc(true).value, c.enc(v.value).value;
      assert (x + y) + rest == x + (y + rest);
    }
  }

  lemma OptionalCanonical<A(!new)>(t: Codec<bool>, c: Codec<A>, s: Bytes)
    requires Inverse(t) && Canonical(t) && Canonical(c) && DecOptional(t, c, s).Some?
    ensures var (v, rest) := DecOptional(t, c, s).value;
            CanonOptional(t, c, s) <==> Writes(Optional(t, c), v, rest, s)
  {
    var (more, s1) := t.dec(s).value;
    if more {
      var (x, s2) := c.dec(s1).value;
      if t.enc(true).Some? && c.enc(x).Some? {
        WritesThen(t, true, s, s1, c.enc(x).value, s2);
      }
    }
  }

  lemma OptionalAligned<A(!new)>(t: Codec<bool>, c: Codec<A>, v: Option<A>)
    requires Aligned(t) && Aligned(c) && EncOptional(t, c, v).Some?
    ensures WholeUnits(EncOptional(t, c, v).value)
  {
    if v.Some? {
      Units(t.enc(true).value, c.enc(v.value).value);
    }
  }

  lemma OptionalLawful<A(!new)>(t: Codec<bool>, c: Codec<A>)
    requires Lawful(t) && Lawful(c)
    ensures Lawful(Optional(t, c))
  {
    var d := Optional(t, c);
    forall v: Option<A>, rest: Bytes | d.enc(v).Some?
      ensures d.dec(d.enc(v).value + rest) == Some((v, rest))
    {
      OptionalInverse(t, c, v, rest);
    }
    forall v: Option<A> | d.enc(v).Some?
      ensures WholeUnits(d.enc(v).value)
    {
      OptionalAligned(t, c, v);
    }
    forall s: Bytes | d.dec(s).Some?
      ensures d.canon(s) <==> Writes(d, d.dec(s).value.0, d.dec(s).value.1, s)
    {
      OptionalCanonical(t, c, s);
    }
  }

  function EncSwitch<A>(u: Codec<uint32>, tag: A -> uint32, arm: uint32 -> Codec<A>, v: A): Option<Bytes> {
    var x :- u.enc(tag(v));
    var y :- arm(tag(v)).enc(v);
    Some(x + y)
  }

  function DecSwitch<A>(u: Codec<uint32>, arm: uint32 -> Codec<A>, s: Bytes): Got<A> {
    var (w, s1) :- u.dec(s);
    arm(w).dec(s1)
  }

  function CanonSwitch<A>(u: Codec<uint32>, arm: uint32 -> Codec<A>, s: Bytes): bool {
    u.canon(s) && (u.dec(s).Some? ==> arm(u.dec(s).value.0).canon(u.dec(s).value.1))
  }

  /** A union: the discriminant of the value, which u carries, and then the arm it selects. */
  function Switch<A>(u: Codec<uint32>, tag: A -> uint32, arm: uint32 -> Codec<A>): Codec<A> {
    Codec((v: A) => EncSwitch(u, tag, arm, v), (s: Bytes) => DecSwitch(u, arm, s), (s: Bytes) => CanonSwitch(u, arm, s))
  }

  /** The arm is lawful and gives only values of its own discriminant. */
  ghost predicate LawfulArm<A(!new)>(tag: A -> uint32, w: uint32, c: Codec<A>) {
    Lawful(c) && forall s :: c.dec(s).Some? ==> tag(c.dec(s).value.0) == w
  }

  lemma SwitchInverse<A(!new)>(u: Codec<uint32>, tag: A -> uint32, arm: uint32 -> Codec<A>, v: A, rest: Bytes)
    requires Inverse(u) && Inverse(arm(tag(v))) && EncSwitch(u, tag, arm, v).Some?
    ensures DecSwitch(u, arm, EncSwitch(u, tag, arm, v).value + rest) == Some((v, rest))
  {
    var x, y := u.enc(tag(v)).value, arm(tag(v)).enc(v).value;
    assert (x + y) + rest == x + (y + rest);
  }

  lemma SwitchCanonical<A(!new)>(u: Codec<uint32>, tag: A -> uint32, arm: uint32 -> Codec<A>, s: Bytes)
    requires Lawful(u) && DecSwitch(u, arm, s).Some? && LawfulArm(tag, u.dec(s).value.0, arm(u.dec(s).value.0))
    ensures var (v, rest) := DecSwitch(u, arm, s).value;
            CanonSwitch(u, arm, s) <==> Writes(Switch(u, tag, arm), v, rest, s)
  {
    var (w, s1) := u.dec(s).value;
    var (v, rest) := arm(w).dec(s1).value;
    if u.enc(w).Some? && arm(w).enc(v).Some? {
      WritesThen(u, w, s, s1, arm(w).enc(v).value, rest);
    }
  }

  lemma SwitchLawful<A(!new)>(u: Codec<uint32>, tag: A -> uint32, arm: uint32 -> Codec<A>)
    requires Lawful(u) && forall w :: LawfulArm(tag, w, arm(w))
    ensures Lawful(Switch(u, tag, arm))
  {
    var c := Switch(u, tag, arm);
    forall v: A, rest: Bytes | c.enc(v).Some?
      ensures c.dec(c.enc(v).value + rest) == Some((v, rest))
    {
      assert LawfulArm(tag, tag(v), arm(tag(v)));
      SwitchInverse(u, tag, arm, v, rest);
    }
    forall v: A | c.enc(v).Some?
      ensures WholeUnits(c.enc(v).value)
    {
      assert LawfulArm(tag, tag(v), arm(tag(v)));
      Units(u.enc(tag(v)).value, arm(tag(v)).enc(v).value);
    }
    forall s: Bytes | c.dec(s).Some?
      ensures |c.dec(s).value.1| <= |s| && (c.canon(s) <==> Writes(c, c.dec(s).value.0, c.dec(s).value.1, s))
    {
      assert LawfulArm(tag, u.dec(s).value.0, arm(u.dec(s).value.0));
      SwitchCanonical(u, tag, arm, s);
    }
  }

  /** A list as optional data: true before each element, false at the end. */
  function EncList<A>(t: Codec<bool>, c: Codec<A>, vs: seq<A>): Option<Bytes> {
    if vs == [] then t.enc(false)
    else
      var x :- EncPair(t, c, (true, vs[0]));
      var xs :- EncList(t, c, vs[1..]);
      Some(x + xs)
  }

  /** The guard on lengths never bites for lawful codecs whose boolean takes up room. */
  function DecList<A>(t: Codec<bool>, c: Codec<A>, s: Bytes): Got<seq<A>>
    decreases |s|
  {
    var (more, s1) :- t.dec(s);
    if !more then Some(([], s1))
    else
      var (x, s2) :- c.dec(s1);
      if |s2| >= |s| then None
      else
        var (xs, s3) :- DecList(t, c, s2);
        Some(([x] + xs, s3))
  }

  function CanonList<A>(t: Codec<bool>, c: Codec<A>, s: Bytes): bool
    decreases |s|
  {
    && t.canon(s)
    && match DecPair(t, c, s)
       case None => true
       case Some(((more, _), s2)) => more && |s2| < |s| ==> c.canon(t.dec(s).value.1) && CanonList(t, c, s2)
  }

  function List<A>(t: Codec<bool>, c: Codec<A>): Codec<seq<A>> {
    Codec((vs: seq<A>) => EncList(t, c, vs), (s: Bytes) => DecList(t, c, s), (s: Bytes) => CanonList(t, c, s))
  }

  /** The boolean takes up room. */
  ghost predicate Consuming(t: Codec<bool>) {
    forall s :: t.dec(s).Some? ==> |t.dec(s).value.1| < |s|
  }

  lemma BoolConsuming()
    ensures Consuming(Bool())
  {
  }

  lemma DecListCons<A(!new)>(t: Codec<bool>, c: Codec<A>, v: A, s: Bytes, x: Bytes)
    requires Lawful(t) && Consuming(t) && Lawful(c) && EncPair(t, c, (true, v)) == Some(x)
    ensures DecList(t, c, x + s) == (var (xs, s3) :- DecList(t, c, s); Some(([v] + xs, s3)))
  {
    var y, z := t.enc(true).value, c.enc(v).value;
    assert (y + z) + s == y + (z + s);
  }

  lemma DecListAfter<A(!new)>(t: Codec<bool>, c: Codec<A>, v: A, vs: seq<A>, x: Bytes, xs: Bytes, rest: Bytes)
    requires Lawful(t) && Consuming(t) && Lawful(c) && EncPair(t, c, (true, v)) == Some(x)
    requires DecList(t, c, xs + rest) == Some((vs, rest))
    ensures DecList(t, c, (x + xs) + rest) == Some(([v] + vs, rest))
  {
    assert (x + xs) + rest == x + (xs + rest);
    DecListCons(t, c, v, xs + rest, x);
  }

  lemma {:induction false} ListInverse<A(!new)>(t: Codec<bool>, c: Codec<A>, vs: seq<A>, rest: Bytes)
    requires Lawful(t) && Consuming(t) && Lawful(c) && EncList(t, c, vs).Some?
    ensures DecList(t, c, EncList(t, c, vs).value + rest) == Some((vs, rest))
  {
    if vs != [] {
      ListInverse(t, c, vs[1..], rest);
      DecListAfter(t, c, vs[0], vs[1..], EncPair(t, c, (true, vs[0])).value, EncList(t, c, vs[1..]).value, rest);
      assert [vs[0]] + vs[1..] == vs;
    }
  }

  lemma {:induction false} ListAligned<A(!new)>(t: Codec<bool>, c: Codec<A>, vs: seq<A>)
    requires Aligned(t) && Aligned(c) && EncList(t, c, vs).Some?
    ensures WholeUnits(EncList(t, c, vs).value)
  {
    if vs != [] {
      ListAligned(t, c, vs[1..]);
      Units(t.enc(true).value, c.enc(vs[0]).value);
      Units(EncPair(t, c, (true, vs[0])).value, EncList(t, c, vs[1..]).value);
    }
  }

  lemma {:induction false} ListShrinks<A>(t: Codec<bool>, c: Codec<A>, s: Bytes)
    requires Consuming(t)
    ensures DecList(t, c, s).Some? ==> |DecList(t, c, s).value.1| <= |s|
    decreases |s|
  {
    if DecList(t, c, s).Some? && t.dec(s).value.0 {
      ListShrinks(t, c, c.dec(t.dec(s).value.1).value.1);
    }
  }

  /** Re-encoding a list is re-encoding its first element in front of the rest re-encoded. */
  lemma WritesCons<A(!new)>(t: Codec<bool>, c: Codec<A>, s: Bytes, s1: Bytes, x: A, s2: Bytes, xs: seq<A>, s3: Bytes)
    requires Lawful(t) && Lawful(c) && t.dec(s) == Some((true, s1)) && c.dec(s1) == Some((x, s2))
    ensures Writes(List(t, c), [x] + xs, s3, s) <==> t.canon(s) && c.canon(s1) && Writes(List(t, c), xs, s3, s2)
  {
    assert ([x] + xs)[1..] == xs;
    PairLawful(t, c);
    assert DecPair(t, c, s) == Some(((true, x), s2));
    if EncPair(t, c, (true, x)).Some? && EncList(t, c, xs).Some? {
      WritesThen(Pair(t, c), (true, x), s, s2, EncList(t, c, xs).value, s3);
    }
  }

  lemma {:induction false} ListCanonical<A(!new)>(t: Codec<bool>, c: Codec<A>, s: Bytes)
    requires Lawful(t) && Consuming(t) && Lawful(c) && DecList(t, c, s).Some?
    ensures var (vs, rest) := DecList(t, c, s).value;
            CanonList(t, c, s) <==> Writes(List(t, c), vs, rest, s)
    decreases |s|
  {
    var (more, s1) := t.dec(s).value;
    if more {
      var (x, s2) := c.dec(s1).value;
      var (xs, s3) := DecList(t, c, s2).value;
      ListCanonical(t, c, s2);
      WritesCons(t, c, s, s1, x, s2, xs, s3);
    }
  }

  lemma ListLawful<A(!new)>(t: Codec<bool>, c: Codec<A>)
    requires Lawful(t) && Consuming(t) && Lawful(c)
    ensures Lawful(List(t, c))
  {
    var d := List(t, c);
    forall vs: seq<A>, rest: Bytes | d.enc(vs).Some?
      ensures d.dec(d.enc(vs).value + rest) == Some((vs, rest))
    {
      ListInverse(t, c, vs, rest);
    }
    forall vs: seq<A> | d.enc(vs).Some?
      ensures WholeUnits(d.enc(vs).value)
    {
      ListAligned(t, c, vs);
    }
    forall s: Bytes | d.dec(s).Some?
      ensures |d.dec(s).value.1| <= |s| && (d.canon(s) <==> Writes(d, d.dec(s).value.0, d.dec(s).value.1, s))
    {
      ListShrinks(t, c, s);
      ListCanonical(t, c, s);
    }
  }

  // ---------------------------------------------------------------- which values can be encoded

  /** A list is accepted when each of its elements is. */
  lemma {:induction false} ListAccepts<A>(t: Codec<bool>, c: Codec<A>, vs: seq<A>)
    requires t.enc(true).Some? && t.enc(false).Some?
    ensures EncList(t, c, vs).Some? <==> forall i :: 0 <= i < |vs| ==> c.enc(vs[i]).Some?
  {
    if vs != [] {
      ListAccepts(t, c, vs[1..]);
      assert forall i :: 0 < i < |vs| ==> vs[i] == vs[1..][i - 1];
    }
  }

  /** The encoder accepts v. */
  predicate Accepts<A>(c: Codec<A>, v: A) {
    c.enc(v).Some?
  }

  lemma PairAccepts<A, B>(a: Codec<A>, b: Codec<B>, v: (A, B))
    ensures Accepts(Pair(a, b), v) <==> Accepts(a, v.0) && Accepts(b, v.1)
  {
  }

  lemma OptionalAccepts<A>(t: Codec<bool>, c: Codec<A>, v: Option<A>)
    requires Accepts(t, true) && Accepts(t, false)
    ensures Accepts(Optional(t, c), v) <==> v.None? || Accepts(c, v.value)
  {
  }

  lemma ConvAccepts<A, B>(c: Codec<A>, to: A -> B, from: B -> Option<A>, v: B)
    ensures Accepts(Conv(c, to, from), v) <==> from(v).Some? && Accepts(c, from(v).value)
  {
  }

  lemma SwitchAccepts<A>(u: Codec<uint32>, tag: A -> uint32, arm: uint32 -> Codec<A>, v: A)
    ensures Accepts(Switch(u, tag, arm), v) <==> Accepts(u, tag(v)) && Accepts(arm(tag(v)), v)
  {
  }
}
