/**
  The XDR stream that the codec routines share.  Encoding appends to the data; decoding takes from its
  front.  A routine either handles its whole value or reports failure.
 */
module XdrStream {
  import opened Common
  import opened Xdr

  /** Decoding c from before gave r; on success the stream is left at after. */
  ghost predicate Reads<T>(c: Codec<T>, before: Bytes, after: Bytes, r: Option<T>) {
    match r
    case None => c.dec(before).None?
    case Some(v) => c.dec(before) == Some((v, after))
  }

  /** Encoding v with c onto before succeeded or not; on success the stream holds after. */
  ghost predicate Wrote<T>(c: Codec<T>, v: T, before: Bytes, after: Bytes, ok: bool) {
    if ok then c.enc(v).Some? && after == before + c.enc(v).value else c.enc(v).None?
  }

  class Stream {
    var data: Bytes

    constructor (d: Bytes)
      ensures data == d
    {
      data := d;
    }

    method Put<T>(c: Codec<T>, v: T) returns (ok: bool)
      modifies this
      ensures Wrote(c, v, old(data), data, ok)
    {
      var b := c.enc(v);
      ok := b.Some?;
      if ok {
        data := data + b.value;
      }
    }

    method Get<T>(c: Codec<T>) returns (r: Option<T>)
      modifies this
      ensures Reads(c, old(data), data, r)
    {
      var g := c.dec(data);
      match g
      case None => r := None;
      case Some((v, rest)) => r, data := Some(v), rest;
    }
  }

  // ---------------------------------------------------------------- one routine after another

  lemma WrotePair<A, B>(a: Codec<A>, b: Codec<B>, u: A, v: B, s0: Bytes, s1: Bytes, s2: Bytes, ok: bool)
    requires Wrote(a, u, s0, s1, true) && Wrote(b, v, s1, s2, ok)
    ensures Wrote(Pair(a, b), (u, v), s0, s2, ok)
  {
    if ok {
      assert s0 + a.enc(u).value + b.enc(v).value == s0 + (a.enc(u).value + b.enc(v).value);
    }
  }

  lemma WrotePairFails<A, B>(a: Codec<A>, b: Codec<B>, u: A, v: B, s0: Bytes, s1: Bytes)
    requires Wrote(a, u, s0, s1, false)
    ensures Wrote(Pair(a, b), (u, v), s0, s1, false)
  {
  }

  lemma ReadPair<A, B>(a: Codec<A>, b: Codec<B>, u: A, r: Option<B>, s0: Bytes, s1: Bytes, s2: Bytes)
    requires Reads(a, s0, s1, Some(u)) && Reads(b, s1, s2, r)
    ensures Reads(Pair(a, b), s0, s2, if r.None? then None else Some((u, r.value)))
  {
  }

  lemma ReadPairFails<A, B>(a: Codec<A>, b: Codec<B>, s0: Bytes, s1: Bytes)
    requires Reads(a, s0, s1, None)
    ensures Reads(Pair(a, b), s0, s1, None)
  {
  }
}
