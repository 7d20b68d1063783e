/**
  CityHash64, CityMurmur and CityHash128: which words of the input go where.  The walks are proved for any
  mixing functions, so their contracts say exactly which words each mixing step is given; City() is the
  mixing the code uses.  Every walk reads each byte of its input and nothing else.
 */
module CityHash64 {
  import opened CityMix
  import opened CityMix64
  import opened CityReader

  datatype Mix = Mix(
    none: bv64,
    len1: (bv8, bv8, bv8, nat) -> bv64,
    len4: (bv32, bv32, nat) -> bv64,
    len8: (bv64, bv64, nat) -> bv64,
    len17: (bv64, bv64, bv64, bv64, nat) -> bv64,
    len33: (Words4, Words4, nat) -> bv64,
    start64: (Words4, Words4, bv64, nat) -> State,
    turn: (State, Words4, Words4) -> State,
    finish64: State -> bv64,
    murmurShort: (Seed, bv64, nat, bv64) -> Murmur,
    murmurStart: (Seed, bv64, bv64, nat) -> Murmur,
    murmurTurn: (Murmur, bv64, bv64) -> Murmur,
    murmurEnd: Murmur -> Seed,
    start128: (Seed, bv64, bv64, bv64, nat) -> State,
    middle: State -> State,
    tailTurn: (State, Words4) -> State,
    finish128: State -> Seed)

  function City(): Mix {
    Mix(K2, Mix1to3, Mix4to7, Mix8to16, Mix17to32, Mix33to64, Start64, Turn, Finish64,
        MurmurShort, MurmurStart, MurmurTurn, MurmurEnd, Start128, Middle, TailTurn, Finish128)
  }

  function Load4(s: Data, p: nat): Words4
    requires p + 32 <= |s|
  {
    Words4(Load64(s, p), Load64(s, p + 8), Load64(s, p + 16), Load64(s, p + 24))
  }

  method Fetch4(r: Reader, p: nat) returns (q: Words4)
    requires p + 32 <= |r.data|
    modifies r
    ensures q == Load4(r.data, p) && r.Reached(old(r.read), p, p + 32)
  {
    var w0 := r.Fetch64(p);
    var w1 := r.Fetch64(p + 8);
    var w2 := r.Fetch64(p + 16);
    var w3 := r.Fetch64(p + 24);
    q := Words4(w0, w1, w2, w3);
  }

  // ---------------------------------------------------------------- up to 64 bytes

  function Hash0to16(m: Mix, s: Data, p: nat, n: nat): bv64
    requires p + n <= |s| && n <= 16
  {
    if n >= 8 then m.len8(Load64(s, p), Load64(s, p + n - 8), n)
    else if n >= 4 then m.len4(Load32(s, p), Load32(s, p + n - 4), n)
    else if n > 0 then m.len1(s[p], s[p + n / 2], s[p + n - 1], n)
    else m.none
  }

  method HashLen0to16(r: Reader, m: Mix, p: nat, n: nat) returns (h: bv64)
    requires p + n <= |r.data| && n <= 16
    modifies r
    ensures h == Hash0to16(m, r.data, p, n) && r.Reached(old(r.read), p, p + n)
  {
    if n >= 8 {
      var a := r.Fetch64(p);
      var b := r.Fetch64(p + n - 8);
      h := m.len8(a, b, n);
    } else if n >= 4 {
      var a := r.Fetch32(p);
      var b := r.Fetch32(p + n - 4);
      h := m.len4(a, b, n);
    } else if n > 0 {
      var a := r.Fetch8(p);
      var b := r.Fetch8(p + n / 2);
      var c := r.Fetch8(p + n - 1);
      h := m.len1(a, b, c, n);
    } else {
      h := m.none;
    }
  }

  function Hash17to64(m: Mix, s: Data): bv64
    requires 17 <= |s| <= 64
  {
    var n := |s|;
    if n <= 32 then m.len17(Load64(s, 0), Load64(s, 8), Load64(s, n - 8), Load64(s, n - 16), n)
    else m.len33(Load4(s, 0), Load4(s, n - 32), n)
  }

  method HashLen17to64(r: Reader, m: Mix) returns (h: bv64)
    requires 17 <= |r.data| <= 64
    modifies r
    ensures h == Hash17to64(m, r.data) && r.Reached(old(r.read), 0, |r.data|)
  {
    var n := |r.data|;
    if n <= 32 {
      var a := r.Fetch64(0);
      var b := r.Fetch64(8);
      var c := r.Fetch64(n - 8);
      var d := r.Fetch64(n - 16);
      h := m.len17(a, b, c, d, n);
    } else {
      var w := Fetch4(r, 0);
      var l := Fetch4(r, n - 32);
      h := m.len33(w, l, n);
    }
  }

  // ---------------------------------------------------------------- blocks of 64 bytes

  /** One block of 64 bytes at p. */
  function TurnAt(m: Mix, s: Data, p: nat, x: State): State {
    if p + 64 <= |s| then m.turn(x, Load4(s, p), Load4(s, p + 32)) else x
  }

  function Stepper(m: Mix, s: Data): (State, nat) -> State {
    (x: State, p: nat) => TurnAt(m, s, p, x)
  }

  ghost predicate Steps(step: (State, nat) -> State, m: Mix, s: Data) {
    forall x: State, p: nat {:trigger TurnAt(m, s, p, x)} :: step(x, p) == TurnAt(m, s, p, x)
  }

  /** The whole blocks among the len bytes from p on. */
  function Turns(step: (State, nat) -> State, p: nat, len: nat, x: State): State
    decreases len
  {
    if len < 64 then x else Turns(step, p + 64, len - 64, step(x, p))
  }

  method OneTurn(r: Reader, m: Mix, ghost step: (State, nat) -> State, p: nat, x: State) returns (y: State)
    requires p + 64 <= |r.data| && Steps(step, m, r.data)
    modifies r
    ensures y == step(x, p) && r.Reached(old(r.read), p, p + 64)
  {
    var lo := Fetch4(r, p);
    var hi := Fetch4(r, p + 32);
    y := m.turn(x, lo, hi);
    assert y == TurnAt(m, r.data, p, x);
  }

  /** The block loop, over a length that is a multiple of 64. */
  method Loop64(r: Reader, m: Mix, ghost step: (State, nat) -> State, len: nat, x0: State) returns (x: State)
    requires len % 64 == 0 && len <= |r.data| && Steps(step, m, r.data)
    modifies r
    ensures x == Turns(step, 0, len, x0) && r.Reached(old(r.read), 0, len)
  {
    x := x0;
    var p, left := 0, len;
    while left != 0
      invariant 0 <= p && 0 <= left && p + left == len && left % 64 == 0 && r.Reached(old(r.read), 0, p)
      invariant Turns(step, p, left, x) == Turns(step, 0, len, x0)
    {
      x := OneTurn(r, m, step, p, x);
      p, left := p + 64, left - 64;
    }
  }

  function HashOver64(m: Mix, step: (State, nat) -> State, s: Data): bv64
    requires |s| > 64
  {
    var n := |s|;
    m.finish64(Turns(step, 0, (n - 1) / 64 * 64, m.start64(Load4(s, n - 64), Load4(s, n - 32), Load64(s, 0), n)))
  }

  /** The start takes the last 64 bytes and the first eight. */
  method Start(r: Reader, m: Mix) returns (x: State)
    requires |r.data| > 64
    modifies r
    ensures x == m.start64(Load4(r.data, |r.data| - 64), Load4(r.data, |r.data| - 32), Load64(r.data, 0), |r.data|)
    ensures forall i: nat :: i in r.read <==> i in old(r.read) || i < 8 || |r.data| - 64 <= i < |r.data|
  {
    var n := |r.data|;
    var lo := Fetch4(r, n - 64);
    var hi := Fetch4(r, n - 32);
    var first := r.Fetch64(0);
    x := m.start64(lo, hi, first, n);
  }

  method HashLong64(r: Reader, m: Mix, ghost step: (State, nat) -> State) returns (h: bv64)
    requires |r.data| > 64 && Steps(step, m, r.data)
    modifies r
    ensures h == HashOver64(m, step, r.data) && r.Reached(old(r.read), 0, |r.data|)
  {
    var x := Start(r, m);
    x := Loop64(r, m, step, (|r.data| - 1) / 64 * 64, x);
    h := m.finish64(x);
  }

  function Hash64(m: Mix, s: Data): bv64 {
    if |s| <= 16 then Hash0to16(m, s, 0, |s|)
    else if |s| <= 64 then Hash17to64(m, s)
    else HashOver64(m, Stepper(m, s), s)
  }

  /** The 64-bit hash of an input of any length, reading every byte of it and none outside it. */
  method CityHash64(r: Reader, m: Mix := City()) returns (h: bv64)
    modifies r
    ensures h == Hash64(m, r.data) && r.Reached(old(r.read), 0, |r.data|)
  {
    if |r.data| <= 16 {
      h := HashLen0to16(r, m, 0, |r.data|);
    } else if |r.data| <= 64 {
      h := HashLen17to64(r, m);
    } else {
      h := HashLong64(r, m, Stepper(m, r.data));
    }
  }

  // ---------------------------------------------------------------- inputs that never collide

  lemma JoinEnds(s: Data, t: Data)
    requires 4 <= |s| == |t| <= 7 && s[..4] == t[..4] && s[|s| - 4..] == t[|t| - 4..]
    ensures s == t
  {
    forall i | 0 <= i < |s|
      ensures s[i] == t[i]
    {
      if i < 4 {
        assert s[i] == s[..4][i] && t[i] == t[..4][i];
      } else {
        assert s[i] == s[|s| - 4..][i - (|s| - 4)] && t[i] == t[|t| - 4..][i - (|t| - 4)];
      }
    }
  }

  lemma Hash4to7(s: Data)
    requires 4 <= |s| <= 7
    ensures Hash64(City(), s) == Mix4to7(Load32(s, 0), Load32(s, |s| - 4), |s|)
  {
  }

  /** The words tell the four bytes at each end. */
  lemma EndWords(s: Data, t: Data)
    requires 4 <= |s| == |t| <= 7
    ensures Load32(s, 0) == Load32(t, 0) <==> s[..4] == t[..4]
    ensures Load32(s, |s| - 4) == Load32(t, |t| - 4) <==> s[|s| - 4..] == t[|t| - 4..]
  {
    Load32Injective(s, t, 0);
    Load32Injective(s, t, |s| - 4);
    assert s[|s| - 4..|s| - 4 + 4] == s[|s| - 4..] && t[|t| - 4..|t| - 4 + 4] == t[|t| - 4..];
    assert s[..4] == s[0..4] && t[..4] == t[0..4];
  }

  /** Inputs of four to seven bytes with the same length and the same last four bytes never collide. */
  lemma SameEndOf4to7(s: Data, t: Data)
    requires 4 <= |s| == |t| <= 7 && s[|s| - 4..] == t[|t| - 4..] && s != t
    ensures Hash64(City(), s) != Hash64(City(), t)
  {
    EndWords(s, t);
    Hash4to7(s);
    Hash4to7(t);
    if s[..4] == t[..4] {
      JoinEnds(s, t);
    }
    WordsTell(Load32(s, 0), Load32(t, 0), Load32(s, |s| - 4), |s|);
  }

  lemma WordsTell(a: bv32, a': bv32, b: bv32, n: nat)
    requires a != a'
    ensures Mix4to7(a, b, n) != Mix4to7(a', b, n)
  {
    if Mix4to7(a, b, n) == Mix4to7(a', b, n) {
      Mix4to7Injective(a, a', b, n);
    }
  }
}
