/**
  CityHash's mixing steps on machine words, with their inverses: each step is a permutation, so it loses
  nothing of the word it mixes.
 */
module CityMix {
  const K0: bv64 := 0xc3a5c85c97cb3127
  const K1: bv64 := 0xb492b66fbe98f273
  const K2: bv64 := 0x9ae16a3b2f90404f
  const C1: bv32 := 0xcc9e2d51

  // ---------------------------------------------------------------- rotations

  function Rotate32(x: bv32, n: bv6): bv32
    requires n <= 32
  {
    if n == 0 then x else (x >> n) | (x << (32 - n))
  }

  /** Rotating back undoes any rotation. */
  lemma Rotate32Inverse(x: bv32, n: bv6)
    requires n <= 32
    ensures Rotate32(Rotate32(x, n), 32 - n) == x
  {
    if n < 16 {
    } else {
    }
  }

  function Rotate(x: bv64, n: bv7): bv64
    requires n <= 64
  {
    if n == 0 then x else (x >> n) | (x << (64 - n))
  }

  // ---------------------------------------------------------------- shifts and multiplications

  function ShiftMix(x: bv64): bv64 {
    x ^ (x >> 47)
  }

  /** ShiftMix is its own inverse. */
  lemma ShiftMixInverse(x: bv64)
    ensures ShiftMix(ShiftMix(x)) == x
  {
    var y := x ^ (x >> 47);
    assert ShiftMix(x) == y;
    assert ShiftMix(y) == x;
  }

  function Xor16(x: bv32): bv32 {
    x ^ (x >> 16)
  }

  function Xor13(x: bv32): bv32 {
    x ^ (x >> 13)
  }

  function UnXor13(x: bv32): bv32 {
    x ^ (x >> 13) ^ (x >> 26)
  }

  lemma Xor16Inverse(x: bv32)
    ensures Xor16(Xor16(x)) == x
  {
    var y := x ^ (x >> 16);
    assert Xor16(x) == y;
    assert Xor16(y) == x;
  }

  lemma Xor13Inverse(x: bv32)
    ensures UnXor13(Xor13(x)) == x
  {
    var y := x ^ (x >> 13);
    assert Xor13(x) == y;
    assert UnXor13(y) == x;
  }

  function Bswap32(x: bv32): bv32 {
    (x >> 24) | ((x >> 8) & 0xff00) | ((x << 8) & 0xff0000) | (x << 24)
  }

  lemma Bswap32Inverse(x: bv32)
    ensures Bswap32(Bswap32(x)) == x
  {
    var y := (x >> 24) | ((x >> 8) & 0xff00) | ((x << 8) & 0xff0000) | (x << 24);
    assert Bswap32(x) == y;
    assert Bswap32(y) == x;
  }

  // ---------------------------------------------------------------- multiplications and sums

  function Times(x: bv32, m: bv32): bv32 {
    x * m
  }

  lemma TimesAssociates(x: bv32, m: bv32, i: bv32)
    ensures (x * m) * i == x * (m * i)
  {
  }

  lemma TimesOne(x: bv32, one: bv32)
    requires one == 1
    ensures x * one == x
  {
  }

  /** A multiplier is undone by its inverse modulo 2^32. */
  lemma TimesInverse(x: bv32, m: bv32, i: bv32)
    requires m * i == 1
    ensures Times(Times(x, m), i) == x
  {
    calc {
      Times(Times(x, m), i);
      Times(x * m, i);
      (x * m) * i;
      { TimesAssociates(x, m, i); }
      x * (m * i);
      { TimesOne(x, m * i); }
      x;
    }
  }

  function Add(x: bv32, k: bv32): bv32 {
    x + k
  }

  function Subtract(x: bv32, k: bv32): bv32 {
    x - k
  }

  lemma AddInverse(x: bv32, k: bv32)
    ensures Subtract(Add(x, k), k) == x
  {
    var y := x + k;
    assert Add(x, k) == y;
    assert Subtract(y, k) == x;
  }

  function XorWith(x: bv32, k: bv32): bv32 {
    x ^ k
  }

  lemma XorInverse(x: bv32, k: bv32)
    ensures XorWith(XorWith(x, k), k) == x
  {
    var y := x ^ k;
    assert XorWith(x, k) == y;
    assert XorWith(y, k) == x;
  }

  // ---------------------------------------------------------------- mixing programs

  /** One mixing step on a 32-bit word, and the step that undoes it. */
  datatype Op = Op(do: bv32 -> bv32, undo: bv32 -> bv32)

  ghost predicate Undoable(op: Op) {
    forall x :: op.undo(op.do(x)) == x
  }

  function XorShift16(): Op {
    Op(Xor16, Xor16)
  }

  function XorShift13(): Op {
    Op(Xor13, UnXor13)
  }

  function Rot(n: bv6): Op
    requires n <= 32
  {
    Op((x: bv32) => Rotate32(x, n), (x: bv32) => Rotate32(x, 32 - n))
  }

  function Plus(k: bv32): Op {
    Op((x: bv32) => Add(x, k), (x: bv32) => Subtract(x, k))
  }

  function Xor(k: bv32): Op {
    Op((x: bv32) => XorWith(x, k), (x: bv32) => XorWith(x, k))
  }

  function Bswap(): Op {
    Op(Bswap32, Bswap32)
  }

  function Multiply(m: bv32, i: bv32): Op {
    Op((x: bv32) => Times(x, m), (x: bv32) => Times(x, i))
  }

  function MulC1(): Op {
    Multiply(C1, 0xdee13bb1)
  }

  function MulC2(): Op {
    Multiply(0x1b873593, 0x56ed309b)
  }

  function Mul5(): Op {
    Multiply(5, 0xcccccccd)
  }

  function MulF1(): Op {
    Multiply(0x85ebca6b, 0xa5cb9243)
  }

  function MulF2(): Op {
    Multiply(0xc2b2ae35, 0x7ed1b41d)
  }

  lemma ShiftsUndoable()
    ensures Undoable(XorShift16()) && Undoable(XorShift13())
  {
    forall x: bv32
      ensures Xor16(Xor16(x)) == x && UnXor13(Xor13(x)) == x
    {
      Xor16Inverse(x);
      Xor13Inverse(x);
    }
  }

  lemma RotUndoable(n: bv6)
    requires n <= 32
    ensures Undoable(Rot(n))
  {
    forall x: bv32
      ensures Rotate32(Rotate32(x, n), 32 - n) == x
    {
      Rotate32Inverse(x, n);
    }
  }

  lemma PlusUndoable(k: bv32)
    ensures Undoable(Plus(k))
  {
    forall x: bv32
      ensures Subtract(Add(x, k), k) == x
    {
      AddInverse(x, k);
    }
  }

  lemma XorUndoable(k: bv32)
    ensures Undoable(Xor(k))
  {
    forall x: bv32
      ensures XorWith(XorWith(x, k), k) == x
    {
      XorInverse(x, k);
    }
  }

  lemma BswapUndoable()
    ensures Undoable(Bswap())
  {
    forall x: bv32
      ensures Bswap32(Bswap32(x)) == x
    {
      Bswap32Inverse(x);
    }
  }

  lemma MultiplyUndoable(m: bv32, i: bv32)
    requires m * i == 1
    ensures Undoable(Multiply(m, i))
  {
    forall x: bv32
      ensures Times(Times(x, m), i) == x
    {
      TimesInverse(x, m, i);
    }
  }

  lemma MulsUndoable()
    ensures Undoable(MulC1()) && Undoable(MulC2()) && Undoable(Mul5()) && Undoable(MulF1()) && Undoable(MulF2())
  {
    MultiplyUndoable(C1, 0xdee13bb1);
    MultiplyUndoable(0x1b873593, 0x56ed309b);
    MultiplyUndoable(5, 0xcccccccd);
    MultiplyUndoable(0x85ebca6b, 0xa5cb9243);
    MultiplyUndoable(0xc2b2ae35, 0x7ed1b41d);
  }

  type Program = seq<Op>

  ghost predicate Wf(p: Program) {
    forall i :: 0 <= i < |p| ==> Undoable(p[i])
  }

  function Apply(p: Program, x: bv32): bv32 {
    if p == [] then x else Apply(p[1..], p[0].do(x))
  }

  function Unapply(p: Program, y: bv32): bv32 {
    if p == [] then y else p[0].undo(Unapply(p[1..], y))
  }

  /** Every mixing program can be undone. */
  lemma {:induction false} ProgramInverse(p: Program, x: bv32)
    requires Wf(p)
    ensures Unapply(p, Apply(p, x)) == x
  {
    if p != [] {
      assert Undoable(p[0]);
      ProgramInverse(p[1..], p[0].do(x));
    }
  }

  /** Every mixing program is a permutation of the words. */
  lemma ProgramInjective(p: Program, x: bv32, y: bv32)
    requires Wf(p) && Apply(p, x) == Apply(p, y)
    ensures x == y
  {
    ProgramInverse(p, x);
    ProgramInverse(p, y);
  }
}
