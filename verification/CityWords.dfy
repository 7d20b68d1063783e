/**
  CityHash64 and CityHash128 block by block: the mixing calls that the loops amount to, counted from the
  first, with the place in the input of every word they take.
 */
module CityWords {
  import opened CityMix
  import opened CityMix64
  import opened CityReader
  import opened CityHash64
  import opened CityHash128

  /** A 64-bit load is two 32-bit ones, the second in the upper half. */
  lemma Load64Halves(s: Data, p: nat)
    requires p + 8 <= |s|
    ensures Load64(s, p) == ((Load32(s, p + 4) as bv64) << 32) | (Load32(s, p) as bv64)
  {
    Load4Bytes(s, p + 4);
    Load8Bytes(s, p);
  }

  lemma {:induction false} Load4Bytes(s: Data, p: nat)
    requires p + 4 <= |s|
    ensures LoadBytes(s, p, 4) == Load32(s, p) as bv64
  {
    assert LoadBytes(s, p + 4, 0) == 0;
    assert LoadBytes(s, p + 3, 1) == s[p + 3] as bv64;
    assert LoadBytes(s, p + 2, 2) == (LoadBytes(s, p + 3, 1) << 8) | (s[p + 2] as bv64);
    assert LoadBytes(s, p + 1, 3) == (LoadBytes(s, p + 2, 2) << 8) | (s[p + 1] as bv64);
  }

  lemma {:induction false} Load8Bytes(s: Data, p: nat)
    requires p + 8 <= |s|
    ensures LoadBytes(s, p, 8) == (LoadBytes(s, p + 4, 4) << 32) | (Load32(s, p) as bv64)
  {
    assert LoadBytes(s, p + 3, 5) == (LoadBytes(s, p + 4, 4) << 8) | (s[p + 3] as bv64);
    assert LoadBytes(s, p + 2, 6) == (LoadBytes(s, p + 3, 5) << 8) | (s[p + 2] as bv64);
    assert LoadBytes(s, p + 1, 7) == (LoadBytes(s, p + 2, 6) << 8) | (s[p + 1] as bv64);
    ShiftFour(LoadBytes(s, p + 4, 4), s[p], s[p + 1], s[p + 2], s[p + 3]);
  }

  lemma ShiftFour(x: bv64, a: bv8, b: bv8, c: bv8, d: bv8)
    ensures (((((((x << 8) | (d as bv64)) << 8) | (c as bv64)) << 8) | (b as bv64)) << 8) | (a as bv64) ==
            (x << 32) | (Word(a, b, c, d) as bv64)
  {
  }

  /** Four words of eight bytes from p on. */
  function Four(s: Data, p: nat): Words4
    requires p + 32 <= |s|
  {
    Words4(Load64(s, p), Load64(s, p + 8), Load64(s, p + 16), Load64(s, p + 24))
  }

  // ---------------------------------------------------------------- the 64-bit hash

  /** The state after the first k blocks from p on. */
  function Blocks(step: (State, nat) -> State, p: nat, k: nat, x: State): State {
    if k == 0 then x else step(Blocks(step, p, k - 1, x), p + 64 * (k - 1))
  }

  lemma {:induction false} TurnsEnd(step: (State, nat) -> State, p: nat, k: nat, x: State)
    ensures Turns(step, p, 64 * k + 64, x) == step(Turns(step, p, 64 * k, x), p + 64 * k)
    decreases k
  {
    if k > 0 {
      TurnsEnd(step, p + 64, k - 1, step(x, p));
    }
  }

  /** The block loop takes the blocks in order, each once. */
  lemma {:induction false} TurnsAreBlocks(step: (State, nat) -> State, p: nat, k: nat, x: State)
    ensures Turns(step, p, 64 * k, x) == Blocks(step, p, k, x)
    decreases k
  {
    if k > 0 {
      TurnsAreBlocks(step, p, k - 1, x);
      TurnsEnd(step, p, k - 1, x);
    }
  }

  /** What a block takes. */
  lemma BlockTakes(m: Mix, s: Data, p: nat, x: State)
    requires p + 64 <= |s|
    ensures Stepper(m, s)(x, p) == m.turn(x, Four(s, p), Four(s, p + 32))
  {
  }

  lemma Words64Short(m: Mix, s: Data)
    requires |s| <= 64
    ensures var n := |s|;
            Hash64(m, s) ==
            if n == 0 then m.none
            else if n <= 3 then m.len1(s[0], s[n / 2], s[n - 1], n)
            else if n <= 7 then m.len4(Load32(s, 0), Load32(s, n - 4), n)
            else if n <= 16 then m.len8(Load64(s, 0), Load64(s, n - 8), n)
            else if n <= 32 then m.len17(Load64(s, 0), Load64(s, 8), Load64(s, n - 8), Load64(s, n - 16), n)
            else m.len33(Four(s, 0), Four(s, n - 32), n)
  {
  }

  /** Over 64 bytes: the last 64 bytes and the first word, then every block of 64 but for the last bytes, one to 64. */
  lemma Words64Long(m: Mix, s: Data)
    requires |s| > 64
    ensures var n := |s|;
            Hash64(m, s) ==
            m.finish64(Blocks(Stepper(m, s), 0, (n - 1) / 64, m.start64(Four(s, n - 64), Four(s, n - 32), Load64(s, 0), n)))
  {
    var n := |s|;
    TurnsAreBlocks(Stepper(m, s), 0, (n - 1) / 64, m.start64(Four(s, n - 64), Four(s, n - 32), Load64(s, 0), n));
  }

  // ---------------------------------------------------------------- CityMurmur

  /** The state after the first k pairs of words from p on. */
  function PairsFrom(m: Mix, s: Data, p: nat, k: nat, x: Murmur): Murmur
    requires p + 16 * k <= |s|
  {
    if k == 0 then x
    else m.murmurTurn(PairsFrom(m, s, p, k - 1, x), Load64(s, p + 16 * k - 16), Load64(s, p + 16 * k - 8))
  }

  lemma {:induction false} PairsEnd(m: Mix, s: Data, p: nat, k: nat, x: Murmur)
    requires p + 16 * k + 16 <= |s|
    ensures PairsFrom(m, s, p + 16, k, m.murmurTurn(x, Load64(s, p), Load64(s, p + 8))) == PairsFrom(m, s, p, k + 1, x)
    decreases k
  {
    if k > 0 {
      PairsEnd(m, s, p, k - 1, x);
    }
  }

  lemma {:induction false} MurmurTurnsArePairs(m: Mix, s: Data, p: nat, n: nat, x: Murmur)
    requires p + n <= |s| && n > 0
    ensures MurmurTurns(m, s, p, n, x) == PairsFrom(m, s, p, (n - 1) / 16, x)
    decreases n
  {
    if n > 16 {
      var k := (n - 17) / 16;
      assert (n - 1) / 16 == k + 1;
      MurmurTurnsArePairs(m, s, p + 16, n - 16, m.murmurTurn(x, Load64(s, p), Load64(s, p + 8)));
      PairsEnd(m, s, p, k, x);
    }
  }

  /** Over 16 bytes: the last two words, then every 16 bytes but for the last ones, one to 16. */
  lemma WordsMurmur(m: Mix, s: Data, p: nat, n: nat, seed: Seed)
    requires p + n <= |s| && 16 < n < 128
    ensures SeededOf(m, s, p, n, seed) ==
            m.murmurEnd(PairsFrom(m, s, p, (n - 1) / 16, m.murmurStart(seed, Load64(s, p + n - 8), Load64(s, p + n - 16), n)))
  {
    MurmurTurnsArePairs(m, s, p, n, m.murmurStart(seed, Load64(s, p + n - 8), Load64(s, p + n - 16), n));
  }

  // ---------------------------------------------------------------- CityHash128WithSeed

  /** The state after k chunks of 32 bytes, the first of which ends at end and each next one before it. */
  function Chunks(tail: (State, nat) -> State, end: nat, k: nat, x: State): State
    requires 32 * k <= end
  {
    if k == 0 then x else tail(Chunks(tail, end, k - 1, x), end - 32 * (k - 1))
  }

  lemma {:induction false} ChunksEnd(tail: (State, nat) -> State, end: nat, k: nat, x: State)
    requires 32 * k + 32 <= end
    ensures Chunks(tail, end - 32, k, tail(x, end)) == Chunks(tail, end, k + 1, x)
    decreases k
  {
    if k > 0 {
      ChunksEnd(tail, end, k - 1, x);
    } else {
      assert Chunks(tail, end, 0, x) == x;
    }
  }

  /** The tail loop goes backwards from the end until the rest is done, reaching back over it by less than a chunk. */
  lemma {:induction false} TailTurnsAreChunks(tail: (State, nat) -> State, end: nat, left: nat, x: State)
    requires left + 31 <= end
    ensures TailTurns(tail, end, left, x) == Chunks(tail, end, (left + 31) / 32, x)
    decreases left
  {
    if left > 32 {
      TailTurnsAreChunks(tail, end - 32, left - 32, tail(x, end));
      ChunksEnd(tail, end, (left - 1) / 32, x);
    } else if left > 0 {
      assert Chunks(tail, end, 0, x) == x;
    }
  }

  /** What a chunk takes. */
  lemma ChunkTakes(m: Mix, s: Data, end: nat, x: State)
    requires 32 <= end <= |s|
    ensures Tailer(m, s)(x, end) == m.tailTurn(x, Four(s, end - 32))
  {
  }

  lemma BlocksThenChunks(step: (State, nat) -> State, tail: (State, nat) -> State, middle: State -> State,
                         p: nat, n: nat, start: State)
    requires n >= 128
    ensures TailTurns(tail, p + n, n % 128, middle(Turns(step, p, n - n % 128, start))) ==
            Chunks(tail, p + n, (n % 128 + 31) / 32, middle(Blocks(step, p, n / 128 * 2, start)))
  {
    var k := n / 128 * 2;
    assert n - n % 128 == 64 * k;
    TurnsAreBlocks(step, p, k, start);
    TailTurnsAreChunks(tail, p + n, n % 128, middle(Blocks(step, p, k, start)));
  }

  /** From 128 bytes on: three words, every pair of blocks, and the rest in chunks of 32 from the end. */
  lemma Words128Long(m: Mix, s: Data, p: nat, n: nat, seed: Seed)
    requires p + n <= |s| && n >= 128
    ensures var start := m.start128(seed, Load64(s, p), Load64(s, p + 8), Load64(s, p + 88), n);
            var mid := m.middle(Blocks(Stepper(m, s), p, n / 128 * 2, start));
            SeededOf(m, s, p, n, seed) == m.finish128(Chunks(Tailer(m, s), p + n, (n % 128 + 31) / 32, mid))
  {
    var start := m.start128(seed, Load64(s, p), Load64(s, p + 8), Load64(s, p + 88), n);
    BlocksThenChunks(Stepper(m, s), Tailer(m, s), m.middle, p, n, start);
  }

  /** Up to 16 bytes: their 64-bit hash, and their first word when there is one. */
  lemma Words128Short(m: Mix, s: Data, p: nat, n: nat, seed: Seed)
    requires p + n <= |s| && n <= 16
    ensures var hash := if n == 0 then m.none
                        else if n <= 3 then m.len1(s[p], s[p + n / 2], s[p + n - 1], n)
                        else if n <= 7 then m.len4(Load32(s, p), Load32(s, p + n - 4), n)
                        else m.len8(Load64(s, p), Load64(s, p + n - 8), n);
            SeededOf(m, s, p, n, seed) == m.murmurEnd(m.murmurShort(seed, hash, n, if n >= 8 then Load64(s, p) else 0))
  {
  }

  /** The seed: the first two words when there are sixteen bytes, which are then left out of the rest. */
  lemma Words128(m: Mix, s: Data)
    ensures |s| < 16 ==> Hash128(m, s) == SeededOf(m, s, 0, |s|, (0xc3a5c85c97cb3127, 0xb492b66fbe98f273))
    ensures |s| >= 16 ==>
              Hash128(m, s) == SeededOf(m, s, 16, |s| - 16, (Load64(s, 0), Load64(s, 8) + 0xc3a5c85c97cb3127))
  {
  }
}
