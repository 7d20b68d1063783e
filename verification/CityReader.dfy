/**
  The input of the hashes as a buffer that records which of its bytes have been read.  A fetch outside the
  input is excluded by the fetches' preconditions.
 */
module CityReader {

  type Data = seq<bv8>

  function Word(a: bv8, b: bv8, c: bv8, d: bv8): bv32 {
    (a as bv32) | ((b as bv32) << 8) | ((c as bv32) << 16) | ((d as bv32) << 24)
  }

  /** Little-endian loads, as on the machines the code runs on; elsewhere it swaps to this order. */
  function Load32(s: Data, p: nat): bv32
    requires p + 4 <= |s|
  {
    Word(s[p], s[p + 1], s[p + 2], s[p + 3])
  }

  function LoadBytes(s: Data, p: nat, n: nat): bv64
    requires p + n <= |s|
    decreases n
  {
    if n == 0 then 0 else (LoadBytes(s, p + 1, n - 1) << 8) | (s[p] as bv64)
  }

  function Load64(s: Data, p: nat): bv64
    requires p + 8 <= |s|
  {
    LoadBytes(s, p, 8)
  }

  lemma WordInjective(a: bv8, b: bv8, c: bv8, d: bv8, e: bv8, f: bv8, g: bv8, h: bv8)
    requires Word(a, b, c, d) == Word(e, f, g, h)
    ensures a == e && b == f && c == g && d == h
  {
  }

  /** A load tells its four bytes apart. */
  lemma Load32Injective(s: Data, t: Data, p: nat)
    requires p + 4 <= |s| && p + 4 <= |t|
    ensures Load32(s, p) == Load32(t, p) <==> s[p..p + 4] == t[p..p + 4]
  {
    assert s[p..p + 4] == [s[p], s[p + 1], s[p + 2], s[p + 3]];
    assert t[p..p + 4] == [t[p], t[p + 1], t[p + 2], t[p + 3]];
    if Load32(s, p) == Load32(t, p) {
      WordInjective(s[p], s[p + 1], s[p + 2], s[p + 3], t[p], t[p + 1], t[p + 2], t[p + 3]);
    }
  }

  class Reader {
    const data: Data
    ghost var read: set<nat>

    constructor (d: Data)
      ensures data == d && read == {}
    {
      data, read := d, {};
    }

    /** Exactly the bytes from lo up to hi have been read beyond those in before. */
    ghost predicate Reached(before: set<nat>, lo: int, hi: int)
      reads this
    {
      forall i: nat :: i in read <==> i in before || lo <= i < hi
    }

    method Fetch8(p: nat) returns (b: bv8)
      requires p < |data|
      modifies this
      ensures b == data[p] && Reached(old(read), p, p + 1)
    {
      b := data[p];
      read := read + {p};
    }

    method Fetch32(p: nat) returns (w: bv32)
      requires p + 4 <= |data|
      modifies this
      ensures w == Load32(data, p) && Reached(old(read), p, p + 4)
    {
      w := Load32(data, p);
      read := read + {p, p + 1, p + 2, p + 3};
    }

    method Fetch64(p: nat) returns (w: bv64)
      requires p + 8 <= |data|
      modifies this
      ensures w == Load64(data, p) && Reached(old(read), p, p + 8)
    {
      w := Load64(data, p);
      read := read + {p, p + 1, p + 2, p + 3, p + 4, p + 5, p + 6, p + 7};
    }
  }
}
