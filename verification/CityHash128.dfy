/**
  CityMurmur, CityHash128WithSeed and CityHash128 over the input from p on, n bytes long.
 */
module CityHash128 {
  import opened CityMix
  import opened CityMix64
  import opened CityReader
  import opened CityHash64

  // ---------------------------------------------------------------- CityMurmur

  /** Blocks of 16 bytes while more than 16 are left. */
  function MurmurTurns(m: Mix, s: Data, p: nat, len: nat, x: Murmur): Murmur
    requires p + len <= |s|
    decreases len
  {
    if len <= 16 then x else MurmurTurns(m, s, p + 16, len - 16, m.murmurTurn(x, Load64(s, p), Load64(s, p + 8)))
  }

  method MurmurLoop(r: Reader, m: Mix, p: nat, n: nat, x0: Murmur) returns (x: Murmur, left: nat)
    requires p + n <= |r.data| && n > 16
    modifies r
    ensures x == MurmurTurns(m, r.data, p, n, x0)
    ensures 0 < left <= 16 && r.Reached(old(r.read), p, p + n - left)
  {
    x, left := x0, n;
    var q := p;
    while left > 16
      invariant p <= q && 0 < left && q + left == p + n && r.Reached(old(r.read), p, q)
      invariant MurmurTurns(m, r.data, q, left, x) == MurmurTurns(m, r.data, p, n, x0)
    {
      var w0 := r.Fetch64(q);
      var w1 := r.Fetch64(q + 8);
      x := m.murmurTurn(x, w0, w1);
      q, left := q + 16, left - 16;
    }
  }

  function MurmurOf(m: Mix, s: Data, p: nat, n: nat, seed: Seed): Seed
    requires p + n <= |s|
  {
    m.murmurEnd(
      if n <= 16 then m.murmurShort(seed, Hash0to16(m, s, p, n), n, if n >= 8 then Load64(s, p) else 0)
      else MurmurTurns(m, s, p, n, m.murmurStart(seed, Load64(s, p + n - 8), Load64(s, p + n - 16), n)))
  }

  method CityMurmur(r: Reader, m: Mix, p: nat, n: nat, seed: Seed) returns (h: Seed)
    requires p + n <= |r.data|
    modifies r
    ensures h == MurmurOf(m, r.data, p, n, seed) && r.Reached(old(r.read), p, p + n)
  {
    var x;
    if n <= 16 {
      var hash := HashLen0to16(r, m, p, n);
      var first := 0;
      if n >= 8 {
        first := r.Fetch64(p);
      }
      x := m.murmurShort(seed, hash, n, first);
    } else {
      var last := r.Fetch64(p + n - 8);
      var before := r.Fetch64(p + n - 16);
      var left;
      x, left := MurmurLoop(r, m, p, n, m.murmurStart(seed, last, before, n));
    }
    h := m.murmurEnd(x);
  }

  // ---------------------------------------------------------------- CityHash128WithSeed

  /** Two blocks of 64 bytes at a time while at least 128 are left; rest is what is left then. */
  method Loop128(r: Reader, m: Mix, ghost step: (State, nat) -> State, p: nat, n: nat, x0: State) returns (x: State, rest: nat)
    requires p + n <= |r.data| && Steps(step, m, r.data)
    modifies r
    ensures rest == n % 128 && x == Turns(step, p, n - rest, x0) && r.Reached(old(r.read), p, p + n - rest)
  {
    x, rest := x0, n;
    var q := p;
    ghost var whole := n - n % 128;
    while rest >= 128
      invariant p <= q && q + rest == p + n && rest % 128 == n % 128 && r.Reached(old(r.read), p, q)
      invariant Turns(step, q, rest - n % 128, x) == Turns(step, p, whole, x0)
    {
      x := OneTurn(r, m, step, q, x);
      x := OneTurn(r, m, step, q + 64, x);
      q, rest := q + 128, rest - 128;
    }
  }

  /** One chunk of 32 bytes that ends at end. */
  function TailAt(m: Mix, s: Data, end: nat, x: State): State {
    if 32 <= end <= |s| then m.tailTurn(x, Load4(s, end - 32)) else x
  }

  function Tailer(m: Mix, s: Data): (State, nat) -> State {
    (x: State, end: nat) => TailAt(m, s, end, x)
  }

  ghost predicate Tails(tail: (State, nat) -> State, m: Mix, s: Data) {
    forall x: State, end: nat {:trigger TailAt(m, s, end, x)} :: tail(x, end) == TailAt(m, s, end, x)
  }

  /** Chunks of 32 bytes that end at end, then 32 before it, and so on, until left bytes are done. */
  function TailTurns(tail: (State, nat) -> State, end: nat, left: nat, x: State): State
    requires left + 31 <= end
    decreases left
  {
    if left == 0 then x
    else if left <= 32 then tail(x, end)
    else TailTurns(tail, end - 32, left - 32, tail(x, end))
  }

  method OneTail(r: Reader, m: Mix, ghost tail: (State, nat) -> State, end: nat, x: State) returns (y: State)
    requires 32 <= end <= |r.data| && Tails(tail, m, r.data)
    modifies r
    ensures y == tail(x, end) && r.Reached(old(r.read), end - 32, end)
  {
    var q := Fetch4(r, end - 32);
    y := m.tailTurn(x, q);
    assert y == TailAt(m, r.data, end, x);
  }

  /** The chunks may reach back into bytes that the blocks have already taken. */
  method TailLoop(r: Reader, m: Mix, ghost tail: (State, nat) -> State, end: nat, left: nat, x0: State)
    returns (x: State, low: nat)
    requires end <= |r.data| && left + 31 <= end && Tails(tail, m, r.data)
    modifies r
    ensures x == TailTurns(tail, end, left, x0)
    ensures left <= end - low < left + 32 && r.Reached(old(r.read), low, end)
  {
    x := x0;
    var done := 0;
    while done < left
      invariant 0 <= done < left + 32 && done <= end && r.Reached(old(r.read), end - done, end)
      invariant TailTurns(tail, end, left, x0) == if done < left then TailTurns(tail, end - done, left - done, x) else x
    {
      x := OneTail(r, m, tail, end - done, x);
      done := done + 32;
    }
    low := end - done;
  }

  function LongOf(m: Mix, step: (State, nat) -> State, tail: (State, nat) -> State,
                  s: Data, p: nat, n: nat, seed: Seed): Seed
    requires p + n <= |s| && n >= 128
  {
    var start := m.start128(seed, Load64(s, p), Load64(s, p + 8), Load64(s, p + 88), n);
    var x := m.middle(Turns(step, p, n - n % 128, start));
    m.finish128(TailTurns(tail, p + n, n % 128, x))
  }

  method Start(r: Reader, m: Mix, p: nat, n: nat, seed: Seed) returns (x: State)
    requires p + n <= |r.data| && n >= 128
    modifies r
    ensures x == m.start128(seed, Load64(r.data, p), Load64(r.data, p + 8), Load64(r.data, p + 88), n)
    ensures forall i: nat :: i in r.read <==> i in old(r.read) || p <= i < p + 16 || p + 88 <= i < p + 96
  {
    var w0 := r.Fetch64(p);
    var w1 := r.Fetch64(p + 8);
    var w11 := r.Fetch64(p + 88);
    x := m.start128(seed, w0, w1, w11, n);
  }

  method HashLong128(r: Reader, m: Mix, ghost step: (State, nat) -> State, ghost tail: (State, nat) -> State,
                     p: nat, n: nat, seed: Seed) returns (h: Seed)
    requires p + n <= |r.data| && n >= 128 && Steps(step, m, r.data) && Tails(tail, m, r.data)
    modifies r
    ensures h == LongOf(m, step, tail, r.data, p, n, seed) && r.Reached(old(r.read), p, p + n)
  {
    var x := Start(r, m, p, n, seed);
    var rest, low;
    x, rest := Loop128(r, m, step, p, n, x);
    x, low := TailLoop(r, m, tail, p + n, rest, m.middle(x));
    h := m.finish128(x);
  }

  function SeededOf(m: Mix, s: Data, p: nat, n: nat, seed: Seed): Seed
    requires p + n <= |s|
  {
    if n < 128 then MurmurOf(m, s, p, n, seed) else LongOf(m, Stepper(m, s), Tailer(m, s), s, p, n, seed)
  }

  method CityHash128WithSeed(r: Reader, m: Mix, p: nat, n: nat, seed: Seed) returns (h: Seed)
    requires p + n <= |r.data|
    modifies r
    ensures h == SeededOf(m, r.data, p, n, seed) && r.Reached(old(r.read), p, p + n)
  {
    if n < 128 {
      h := CityMurmur(r, m, p, n, seed);
    } else {
      h := HashLong128(r, m, Stepper(m, r.data), Tailer(m, r.data), p, n, seed);
    }
  }

  function Hash128(m: Mix, s: Data): Seed {
    if |s| >= 16 then SeededOf(m, s, 16, |s| - 16, (Load64(s, 0), Load64(s, 8) + K0))
    else SeededOf(m, s, 0, |s|, (K0, K1))
  }

  /** The 128-bit hash of an input of any length, reading every byte of it and none outside it. */
  method CityHash128(r: Reader, m: Mix := City()) returns (h: Seed)
    modifies r
    ensures h == Hash128(m, r.data) && r.Reached(old(r.read), 0, |r.data|)
  {
    if |r.data| >= 16 {
      var a := r.Fetch64(0);
      var b := r.Fetch64(8);
      h := CityHash128WithSeed(r, m, 16, |r.data| - 16, (a, b + K0));
    } else {
      h := CityHash128WithSeed(r, m, 0, |r.data|, (K0, K1));
    }
  }
}
