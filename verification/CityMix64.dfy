/**
  The arithmetic of CityHash64 and CityHash128 on words already loaded, modulo 2^64.
 */
module CityMix64 {
  import opened CityMix

  function Len64(n: nat): bv64 {
    (n % 0x1_0000_0000_0000_0000) as bv64
  }

  function Bswap64(x: bv64): bv64 {
    ((Bswap32((x & 0xffff_ffff) as bv32) as bv64) << 32) | (Bswap32((x >> 32) as bv32) as bv64)
  }

  function Times64(x: bv64, m: bv64): bv64 {
    x * m
  }

  function Xor64(x: bv64, k: bv64): bv64 {
    x ^ k
  }

  function HashMul(u: bv64, v: bv64, mul: bv64): bv64 {
    Times64(ShiftMix(Times64(Xor64(ShiftMix(Times64(Xor64(u, v), mul)), v), mul)), mul)
  }

  function HashLen16(u: bv64, v: bv64): bv64 {
    HashMul(u, v, 0x9ddfea08eb382d69)
  }

  function Mul(n: nat): bv64 {
    K2 + Len64(n) * 2
  }

  function Mix1to3(a: bv8, b: bv8, c: bv8, n: nat): bv64 {
    var y := (a as bv32) + ((b as bv32) << 8);
    var z := ((n % 0x1_0000_0000) as bv32) + ((c as bv32) << 2);
    ShiftMix(((y as bv64) * K2) ^ ((z as bv64) * K0)) * K2
  }

  function Mix4to7(a: bv32, b: bv32, n: nat): bv64 {
    HashMul(Plus64(Widen(a), Len64(n)), b as bv64, Mul(n))
  }

  function Mix8to16(first: bv64, last: bv64, n: nat): bv64 {
    var mul, a := Mul(n), first + K2;
    HashMul(Rotate(last, 37) * mul + a, (Rotate(a, 25) + last) * mul, mul)
  }

  function Mix17to32(w0: bv64, w1: bv64, last: bv64, before: bv64, n: nat): bv64 {
    MixFour(w0, w1, last, before, Mul(n))
  }

  function MixFour(w0: bv64, w1: bv64, last: bv64, before: bv64, mul: bv64): bv64 {
    var a, b, c, d := w0 * K1, w1, last * mul, before * K2;
    HashMul(Rotate(a + b, 43) + Rotate(c, 30) + d, a + Rotate(b + K2, 18) + c, mul)
  }

  /** w0 to w3 are the first four words, l0 to l3 the last four, in the order of the input. */
  function Mix33to64(w: Words4, l: Words4, n: nat): bv64 {
    MixEight(w, l, Mul(n))
  }

  function MixEight(w: Words4, l: Words4, mul: bv64): bv64 {
    var a, b, c, d := w.w0 * K2, w.w1, l.w1, l.w0;
    var e, f, g, h := w.w2 * K2, w.w3 * 9, l.w3, l.w2 * mul;
    var u := Rotate(a + g, 43) + (Rotate(b, 30) + c) * 9;
    var v := ((a + g) ^ d) + f + 1;
    var ww := Bswap64((u + v) * mul) + h;
    var x := Rotate(e + f, 42) + c;
    var y := (Bswap64((v + ww) * mul) + g) * mul;
    var z := e + f + c;
    var a' := Bswap64((x + z) * mul + y) + b;
    ShiftMix((z + a') * mul + d + h) * mul + x
  }

  datatype Words4 = Words4(w0: bv64, w1: bv64, w2: bv64, w3: bv64)

  /** The 56 bytes of state of the long hashes. */
  datatype State = State(x: bv64, y: bv64, z: bv64, v: (bv64, bv64), w: (bv64, bv64))

  function Weak(q: Words4, a: bv64, b: bv64): (bv64, bv64) {
    var a1 := a + q.w0;
    var b1 := Rotate(b + a1 + q.w3, 21);
    var a2 := a1 + q.w1 + q.w2;
    (a2 + q.w3, b1 + Rotate(a2, 44) + a1)
  }

  /** From the last 64 bytes, lo and hi, and the first word. */
  function Start64(lo: Words4, hi: Words4, first: bv64, n: nat): State {
    var x, y := lo.w3, hi.w2 + lo.w1;
    var z := HashLen16(lo.w2 + Len64(n), hi.w1);
    State(x * K1 + first, y, z, Weak(lo, Len64(n), z), Weak(hi, y + K1, x))
  }

  /** One 64-byte block. */
  function Turn(s: State, lo: Words4, hi: Words4): State {
    var x := (Rotate(s.x + s.y + s.v.0 + lo.w1, 37) * K1) ^ s.w.1;
    var y := Rotate(s.y + s.v.1 + hi.w2, 42) * K1 + s.v.0 + hi.w1;
    var z := Rotate(s.z + s.w.0, 33) * K1;
    State(z, y, x, Weak(lo, s.v.1 * K1, x + s.w.0), Weak(hi, z + s.w.1, y + lo.w2))
  }

  function Finish64(s: State): bv64 {
    HashLen16(HashLen16(s.v.0, s.w.0) + ShiftMix(s.y) * K1 + s.z, HashLen16(s.v.1, s.w.1) + s.x)
  }

  // ---------------------------------------------------------------- the 128-bit hash

  type Seed = (bv64, bv64)

  datatype Murmur = Murmur(a: bv64, b: bv64, c: bv64, d: bv64)

  /** At most 16 bytes: their 64-bit hash, and their first word when there is one. */
  function MurmurShort(seed: Seed, hash: bv64, n: nat, first: bv64): Murmur {
    var a := ShiftMix(seed.0 * K1) * K1;
    var c := seed.1 * K1 + hash;
    Murmur(a, seed.1, c, ShiftMix(a + if n >= 8 then first else c))
  }

  function MurmurStart(seed: Seed, last: bv64, before: bv64, n: nat): Murmur {
    var c := HashLen16(last + K1, seed.0);
    var d := HashLen16(seed.1 + Len64(n), c + before);
    Murmur(seed.0 + d, seed.1, c, d)
  }

  function MurmurTurn(m: Murmur, w0: bv64, w1: bv64): Murmur {
    var a := (m.a ^ (ShiftMix(w0 * K1) * K1)) * K1;
    var c := (m.c ^ (ShiftMix(w1 * K1) * K1)) * K1;
    Murmur(a, m.b ^ a, c, m.d ^ c)
  }

  function MurmurEnd(m: Murmur): Seed {
    var a, b := HashLen16(m.a, m.c), HashLen16(m.d, m.b);
    (a ^ b, HashLen16(b, a))
  }

  function Start128(seed: Seed, w0: bv64, w1: bv64, w11: bv64, n: nat): State {
    var (x, y) := seed;
    var z := Len64(n) * K1;
    var v0 := Rotate(y ^ K1, 49) * K1 + w0;
    State(x, y, z, (v0, Rotate(v0, 42) * K1 + w1), (Rotate(y + z, 35) * K1 + x, Rotate(x + w11, 53) * K1))
  }

  /** Between the blocks and the tail. */
  function Middle(s: State): State {
    State(s.x + Rotate(s.v.0 + s.z, 49) * K0, s.y * K0 + Rotate(s.w.1, 37), s.z * K0 + Rotate(s.w.0, 27),
          (s.v.0 * K0, s.v.1), (s.w.0 * 9, s.w.1))
  }

  /** One 32-byte chunk of the tail. */
  function TailTurn(s: State, q: Words4): State {
    var y := Rotate(s.x + s.y, 42) * K0 + s.v.1;
    var w0 := s.w.0 + q.w2;
    var x := s.x * K0 + w0;
    var z := s.z + s.w.1 + q.w0;
    var v := Weak(q, s.v.0 + z, s.v.1);
    State(x, y, z, (v.0 * K0, v.1), (w0, s.w.1 + s.v.0))
  }

  function Finish128(s: State): Seed {
    var x, y := HashLen16(s.x, s.v.0), HashLen16(s.y + s.z, s.w.0);
    (HashLen16(x + s.v.1, s.w.1) + y, HashLen16(x + s.w.1, y + s.v.1))
  }

  // ---------------------------------------------------------------- odd multipliers have inverses

  lemma TimesAssociates64(x: bv64, m: bv64, i: bv64)
    ensures Times64(Times64(x, m), i) == Times64(x, Times64(m, i))
  {
    var a, b := x * m, m * i;
    assert Times64(x, m) == a;
    assert Times64(m, i) == b;
    assert Times64(a, i) == Times64(x, b);
  }

  lemma TimesOne64(x: bv64)
    ensures Times64(x, 1) == x
  {
  }

  /** How far m * x is from one, and a word that is closer. */
  function Off(m: bv64, x: bv64): bv64 {
    1 - m * x
  }

  function Nearer(m: bv64, x: bv64): bv64 {
    x * (2 - m * x)
  }

  lemma OffSquared(m: bv64, x: bv64)
    ensures Off(m, Nearer(m, x)) == Times64(Off(m, x), Off(m, x))
  {
    var y, e := x * (2 - m * x), 1 - m * x;
    assert Nearer(m, x) == y;
    assert Off(m, x) == e;
    assert Off(m, y) == Times64(e, e);
  }

  lemma SquareOfTimes(c: bv64, p: bv64)
    ensures Times64(Times64(c, p), Times64(c, p)) == Times64(Times64(c, c), Times64(p, p))
  {
    var a, b, d := c * p, c * c, p * p;
    assert Times64(c, p) == a;
    assert Times64(c, c) == b;
    assert Times64(p, p) == d;
    assert Times64(a, a) == Times64(b, d);
  }

  ghost predicate MultipleOf(x: bv64, p: bv64) {
    exists c :: x == Times64(c, p)
  }

  /** Each step of Newton's iteration squares the power of two that the error is a multiple of. */
  lemma NearerBy(m: bv64, x: bv64, p: bv64, q: bv64)
    requires MultipleOf(Off(m, x), p) && Times64(p, p) == q
    ensures MultipleOf(Off(m, Nearer(m, x)), q)
  {
    var c :| Off(m, x) == Times64(c, p);
    OffSquared(m, x);
    SquareOfTimes(c, p);
    assert Off(m, Nearer(m, x)) == Times64(Times64(c, c), q);
  }

  lemma OddOff(m: bv64)
    requires m & 1 == 1
    ensures Off(m, 1) & 1 == 0
  {
  }

  lemma Half(y: bv64)
    requires y & 1 == 0
    ensures Times64(y >> 1, 2) == y
  {
  }

  lemma ThreeNearer(m: bv64) returns (x: bv64)
    requires m & 1 == 1
    ensures MultipleOf(Off(m, x), 256)
  {
    OddOff(m);
    Half(Off(m, 1));
    var y := Nearer(m, 1);
    NearerBy(m, 1, 2, 4);
    var z := Nearer(m, y);
    NearerBy(m, y, 4, 16);
    x := Nearer(m, z);
    NearerBy(m, z, 16, 256);
  }

  lemma NoneOff(m: bv64, x: bv64)
    requires MultipleOf(Off(m, x), 0)
    ensures Times64(m, x) == 1
  {
    var c :| Off(m, x) == Times64(c, 0);
    assert Times64(c, 0) == 0;
    ZeroOff(m * x);
  }

  lemma ZeroOff(t: bv64)
    ensures 1 - t == 0 ==> t == 1
  {
  }

  /** Every odd word has an inverse modulo 2^64. */
  lemma OddInverse(m: bv64) returns (i: bv64)
    requires m & 1 == 1
    ensures Times64(m, i) == 1
  {
    var x := ThreeNearer(m);
    var y := Nearer(m, x);
    NearerBy(m, x, 256, 0x1_0000);
    var z := Nearer(m, y);
    NearerBy(m, y, 0x1_0000, 0x1_0000_0000);
    i := Nearer(m, z);
    NearerBy(m, z, 0x1_0000_0000, 0);
    NoneOff(m, i);
  }

  // ---------------------------------------------------------------- mixing that loses nothing

  ghost predicate Injective(f: bv64 -> bv64) {
    forall x, y :: f(x) == f(y) ==> x == y
  }

  lemma Cancels(times: (bv64, bv64) -> bv64, x: bv64, y: bv64, m: bv64, i: bv64)
    requires times(times(x, m), i) == times(x, times(m, i)) && times(times(y, m), i) == times(y, times(m, i))
    requires times(m, i) == 1 && times(x, 1) == x && times(y, 1) == y && times(x, m) == times(y, m)
    ensures x == y
  {
  }

  /** Multiplying by an odd word loses nothing. */
  lemma OddTimesInjective(m: bv64)
    requires m & 1 == 1
    ensures Injective((x: bv64) => Times64(x, m))
  {
    var i := OddInverse(m);
    forall x, y | Times64(x, m) == Times64(y, m)
      ensures x == y
    {
      TimesSame(x, y, m, i);
    }
  }

  lemma TimesSame(x: bv64, y: bv64, m: bv64, i: bv64)
    requires Times64(m, i) == 1 && Times64(x, m) == Times64(y, m)
    ensures x == y
  {
    TimesAssociates64(x, m, i);
    TimesAssociates64(y, m, i);
    TimesOne64(x);
    TimesOne64(y);
    Cancels(Times64, x, y, m, i);
  }

  lemma XorTwice(x: bv64, k: bv64)
    ensures Xor64(Xor64(x, k), k) == x
  {
    var y := x ^ k;
    assert Xor64(x, k) == y;
    assert Xor64(y, k) == x;
  }

  lemma XorInjective(k: bv64)
    ensures Injective((x: bv64) => Xor64(x, k))
  {
    forall x, y | Xor64(x, k) == Xor64(y, k)
      ensures x == y
    {
      XorTwice(x, k);
      XorTwice(y, k);
    }
  }

  lemma ShiftMixInjective()
    ensures Injective(ShiftMix)
  {
    forall x, y | ShiftMix(x) == ShiftMix(y)
      ensures x == y
    {
      ShiftMixInverse(x);
      ShiftMixInverse(y);
    }
  }

  lemma ChainSame(xor: bv64 -> bv64, times: bv64 -> bv64, mix: bv64 -> bv64, u: bv64, w: bv64)
    requires Injective(xor) && Injective(times) && Injective(mix)
    requires times(mix(times(xor(mix(times(xor(u))))))) == times(mix(times(xor(mix(times(xor(w)))))))
    ensures u == w
  {
  }

  /** For an odd multiplier and a given second word, HashMul is a permutation of the first. */
  lemma HashMulInjective(u: bv64, w: bv64, v: bv64, mul: bv64)
    requires mul & 1 == 1 && HashMul(u, v, mul) == HashMul(w, v, mul)
    ensures u == w
  {
    OddTimesInjective(mul);
    XorInjective(v);
    ShiftMixInjective();
    ChainSame((x: bv64) => Xor64(x, v), (x: bv64) => Times64(x, mul), ShiftMix, u, w);
  }

  lemma HashLen16Injective(u: bv64, w: bv64, v: bv64)
    requires HashLen16(u, v) == HashLen16(w, v)
    ensures u == w
  {
    HashMulInjective(u, w, v, 0x9ddfea08eb382d69);
  }

  lemma OddMul(n: nat)
    ensures Mul(n) & 1 == 1
  {
    OddPlus(Len64(n));
  }

  lemma OddPlus(x: bv64)
    ensures (K2 + x * 2) & 1 == 1
  {
  }

  /** The first word of four to seven bytes, as it is added to the length. */
  function Widen(a: bv32): bv64 {
    (a as bv64) << 3
  }

  lemma WidenSame(a: bv32, b: bv32)
    requires Widen(a) == Widen(b)
    ensures a == b
  {
  }

  function Plus64(x: bv64, k: bv64): bv64 {
    x + k
  }

  function Minus64(x: bv64, k: bv64): bv64 {
    x - k
  }

  lemma PlusMinus(x: bv64, k: bv64)
    ensures Minus64(Plus64(x, k), k) == x
  {
    var y := x + k;
    assert Plus64(x, k) == y;
    assert Minus64(y, k) == x;
  }

  lemma PlusSame(x: bv64, y: bv64, k: bv64)
    requires Plus64(x, k) == Plus64(y, k)
    ensures x == y
  {
    PlusMinus(x, k);
    PlusMinus(y, k);
  }

  lemma HashMulOfSum(x: bv64, y: bv64, k: bv64, v: bv64, mul: bv64)
    requires mul & 1 == 1 && HashMul(Plus64(x, k), v, mul) == HashMul(Plus64(y, k), v, mul)
    ensures x == y
  {
    HashMulInjective(Plus64(x, k), Plus64(y, k), v, mul);
    PlusSame(x, y, k);
  }

  /** For a length and a last word, the hash of four to seven bytes is a permutation of the first word. */
  lemma Mix4to7Injective(a: bv32, a': bv32, b: bv32, n: nat)
    requires Mix4to7(a, b, n) == Mix4to7(a', b, n)
    ensures a == a'
  {
    OddMul(n);
    HashMulOfSum(Widen(a), Widen(a'), Len64(n), b as bv64, Mul(n));
    WidenSame(a, a');
  }
}
