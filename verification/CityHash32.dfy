/**
  CityHash32.  The hash is given as functions of the loaded words; the methods that walk the input are proved
  to compute them, to read every byte of the input and to read nothing else.  The mixing being permutations,
  some inputs are shown never to collide.
 */
module CityHash32 {
  import opened CityMix
  import opened CityReader

  const MUR: bv32 := 0xe6546b64

  function Len32(n: nat): bv32 {
    (n % 0x1_0000_0000) as bv32
  }

  // ---------------------------------------------------------------- the mixing steps

  function FmixSteps(): Program {
    [XorShift16(), MulF1(), XorShift13(), MulF2(), XorShift16()]
  }

  function Fmix(h: bv32): bv32 {
    Apply(FmixSteps(), h)
  }

  function PremixSteps(): Program {
    [MulC1(), Rot(17), MulC2()]
  }

  function Premix(a: bv32): bv32 {
    Apply(PremixSteps(), a)
  }

  function MurSteps(): Program {
    [Rot(19), Mul5(), Plus(MUR)]
  }

  function Mur(a: bv32, h: bv32): bv32 {
    Apply(MurSteps(), XorWith(h, Premix(a)))
  }

  lemma FmixWf()
    ensures Wf(FmixSteps())
  {
    ShiftsUndoable();
    MulsUndoable();
  }

  lemma PremixWf()
    ensures Wf(PremixSteps())
  {
    MulsUndoable();
    RotUndoable(17);
  }

  lemma MurWf()
    ensures Wf(MurSteps())
  {
    MulsUndoable();
    RotUndoable(19);
    PlusUndoable(MUR);
  }

  lemma FmixInjective(g: bv32, h: bv32)
    requires Fmix(g) == Fmix(h)
    ensures g == h
  {
    FmixWf();
    ProgramInjective(FmixSteps(), g, h);
  }

  lemma XorSame(x: bv32, y: bv32, k: bv32)
    ensures XorWith(x, k) == XorWith(y, k) ==> x == y
    ensures XorWith(k, x) == XorWith(k, y) ==> x == y
  {
  }

  /** Mur is a permutation in each argument: of two calls that agree, one argument agrees if the other does. */
  lemma MurInjective(a: bv32, g: bv32, b: bv32, h: bv32)
    requires Mur(a, g) == Mur(b, h)
    ensures a == b <==> g == h
  {
    PremixWf();
    MurWf();
    ProgramInjective(MurSteps(), XorWith(g, Premix(a)), XorWith(h, Premix(b)));
    if a == b {
      XorSame(g, h, Premix(a));
    }
    if g == h {
      XorSame(Premix(a), Premix(b), g);
      ProgramInjective(PremixSteps(), a, b);
    }
  }

  // ---------------------------------------------------------------- short inputs

  function SignExtend(b: bv8): bv32 {
    if b < 0x80 then b as bv32 else (b as bv32) | 0xffffff00
  }

  function Fold(s: Data, n: nat): (bv32, bv32)
    requires n <= |s|
  {
    if n == 0 then (0, 9)
    else
      var (b, c) := Fold(s, n - 1);
      var b' := Add(Times(b, C1), SignExtend(s[n - 1]));
      (b', XorWith(c, b'))
  }

  function Hash0to4(s: Data): bv32 {
    var (b, c) := Fold(s, |s|);
    Fmix(Mur(b, Mur(Len32(|s|), c)))
  }

  function Hash5to12(s: Data): bv32
    requires 5 <= |s| <= 12
  {
    var n := |s|;
    var a := Len32(n);
    var b := Times(a, 5);
    var mid := if n < 8 then 0 else 4;
    Fmix(Mur(Add(9, Load32(s, mid)), Mur(Add(b, Load32(s, n - 4)), Mur(Add(a, Load32(s, 0)), b))))
  }

  /** Mur over words, one after the other. */
  function MurChain(ws: seq<bv32>, h: bv32): bv32 {
    if ws == [] then h else MurChain(ws[1..], Mur(ws[0], h))
  }

  /** The words that lengths 13 to 24 take, in the order they are mixed. */
  function Words13to24(s: Data): seq<bv32>
    requires 13 <= |s| <= 24
  {
    var n := |s|;
    [Load32(s, n / 2 - 4), Load32(s, 4), Load32(s, n - 8), Load32(s, n / 2), Load32(s, 0), Load32(s, n - 4)]
  }

  function Hash13to24(s: Data): bv32
    requires 13 <= |s| <= 24
  {
    Fmix(MurChain(Words13to24(s), Len32(|s|)))
  }

  method Hash32Len0to4(r: Reader) returns (h: bv32)
    modifies r
    ensures h == Hash0to4(r.data) && r.Reached(old(r.read), 0, |r.data|)
  {
    var b: bv32, c: bv32 := 0, 9;
    var i := 0;
    while i < |r.data|
      invariant 0 <= i <= |r.data| && (b, c) == Fold(r.data, i) && r.Reached(old(r.read), 0, i)
    {
      var v := r.Fetch8(i);
      b := Add(Times(b, C1), SignExtend(v));
      c := XorWith(c, b);
      i := i + 1;
    }
    h := Fmix(Mur(b, Mur(Len32(|r.data|), c)));
  }

  /** (len >> 1) & 4 is four from length eight on and zero below it. */
  method Hash32Len5to12(r: Reader) returns (h: bv32)
    requires 5 <= |r.data| <= 12
    modifies r
    ensures h == Hash5to12(r.data) && r.Reached(old(r.read), 0, |r.data|)
  {
    var n := |r.data|;
    var a := Len32(n);
    var b, c, d := Times(a, 5), 9, Times(a, 5);
    var x := r.Fetch32(0);
    var y := r.Fetch32(n - 4);
    var z := r.Fetch32(if n < 8 then 0 else 4);
    h := Fmix(Mur(Add(c, z), Mur(Add(b, y), Mur(Add(a, x), d))));
  }

  method FetchWords13to24(r: Reader) returns (ws: seq<bv32>)
    requires 13 <= |r.data| <= 24
    modifies r
    ensures ws == Words13to24(r.data) && r.Reached(old(r.read), 0, |r.data|)
  {
    var n := |r.data|;
    var a := r.Fetch32(n / 2 - 4);
    var b := r.Fetch32(4);
    var c := r.Fetch32(n - 8);
    var d := r.Fetch32(n / 2);
    var e := r.Fetch32(0);
    var f := r.Fetch32(n - 4);
    ws := [a, b, c, d, e, f];
  }

  method Hash32Len13to24(r: Reader) returns (h: bv32)
    requires 13 <= |r.data| <= 24
    modifies r
    ensures h == Hash13to24(r.data) && r.Reached(old(r.read), 0, |r.data|)
  {
    var ws := FetchWords13to24(r);
    h := Fmix(MurChain(ws, Len32(|r.data|)));
  }

  // ---------------------------------------------------------------- long inputs

  datatype Regs = Regs(f: bv32, g: bv32, h: bv32)

  datatype Words = Words(w0: bv32, w1: bv32, w2: bv32, w3: bv32, w4: bv32)

  function LoadWords(s: Data, p: nat): Words
    requires p + 20 <= |s|
  {
    Words(Load32(s, p), Load32(s, p + 4), Load32(s, p + 8), Load32(s, p + 12), Load32(s, p + 16))
  }

  /** The registers after the last twenty bytes w, whose words the code takes from the end. */
  function Start(w: Words, n: nat): Regs {
    var h := Len32(n);
    var g := Times(h, C1);
    Regs(Apply(MurSteps(), Add(g, Premix(w.w0))), Mur(w.w2, Mur(w.w3, g)), Mur(w.w1, Mur(w.w4, h)))
  }

  function FBlock(w: Words): Program {
    [Plus(w.w1), Rot(19), MulC1(), Plus(Premix(w.w0))]
  }

  function GRest(w4: bv32): Program {
    [Rot(18), Mul5(), Plus(MUR), Xor(w4), Bswap(), Mul5()]
  }

  function GBlock(w: Words): Program {
    [] + [Plus(Premix(w.w2))] + GRest(w.w4)
  }

  function HFirst(w0: bv32): Program {
    [Xor(Premix(w0)), Rot(18), Mul5(), Plus(MUR)]
  }

  function HRest(w4: bv32): Program {
    [Rot(19), Mul5(), Plus(MUR), Plus(Times(w4, 5)), Bswap()]
  }

  function HBlock(w: Words): Program {
    HFirst(w.w0) + [Xor(Add(Premix(w.w3), w.w1))] + HRest(w.w4)
  }

  /** One turn of the block loop; no register meets another before the exchange at its end. */
  function Block(x: Regs, w: Words): Regs {
    Regs(Apply(GBlock(w), x.g), Apply(HBlock(w), x.h), Apply(FBlock(w), x.f))
  }

  /** The first k blocks, each taken by turn. */
  function Blocks(turn: (Regs, Words) -> Regs, s: Data, k: nat, x: Regs): Regs
    requires 20 * k <= |s|
  {
    if k == 0 then x else turn(Blocks(turn, s, k - 1, x), LoadWords(s, 20 * (k - 1)))
  }

  function TailSteps(): Program {
    [Rot(11), MulC1(), Rot(17), MulC1()]
  }

  function SumSteps(): Program {
    [Rot(19), Mul5(), Plus(MUR), Rot(17), MulC1()]
  }

  function Finish(x: Regs): bv32 {
    var g, f := Apply(TailSteps(), x.g), Apply(TailSteps(), x.f);
    Apply(SumSteps(), Add(Apply(SumSteps(), Add(x.h, g)), f))
  }

  function HashLong(s: Data): bv32
    requires |s| > 24
  {
    Finish(Blocks(Block, s, (|s| - 1) / 20, Start(LoadWords(s, |s| - 20), |s|)))
  }

  function Hash(s: Data): bv32 {
    if |s| <= 4 then Hash0to4(s)
    else if |s| <= 12 then Hash5to12(s)
    else if |s| <= 24 then Hash13to24(s)
    else HashLong(s)
  }

  method FetchWords(r: Reader, p: nat) returns (w: Words)
    requires p + 20 <= |r.data|
    modifies r
    ensures w == LoadWords(r.data, p) && r.Reached(old(r.read), p, p + 20)
  {
    var w0 := r.Fetch32(p);
    var w1 := r.Fetch32(p + 4);
    var w2 := r.Fetch32(p + 8);
    var w3 := r.Fetch32(p + 12);
    var w4 := r.Fetch32(p + 16);
    w := Words(w0, w1, w2, w3, w4);
  }

  /** The block loop. */
  method RunBlocks(r: Reader, turn: (Regs, Words) -> Regs, x0: Regs) returns (x: Regs)
    requires |r.data| > 24
    modifies r
    ensures x == Blocks(turn, r.data, (|r.data| - 1) / 20, x0)
    ensures r.Reached(old(r.read), 0, 20 * ((|r.data| - 1) / 20))
  {
    x := x0;
    var p, iters := 0, (|r.data| - 1) / 20;
    ghost var k := 0;
    while iters != 0
      invariant 0 <= k && 0 <= iters && k + iters == (|r.data| - 1) / 20 && p == 20 * k && p + 20 * iters < |r.data|
      invariant x == Blocks(turn, r.data, k, x0) && r.Reached(old(r.read), 0, p)
    {
      var w := FetchWords(r, p);
      x := turn(x, w);
      p, iters, k := p + 20, iters - 1, k + 1;
    }
  }

  method HashOver24(r: Reader) returns (h: bv32)
    requires |r.data| > 24
    modifies r
    ensures h == HashLong(r.data) && r.Reached(old(r.read), 0, |r.data|)
  {
    var last := FetchWords(r, |r.data| - 20);
    var x := RunBlocks(r, Block, Start(last, |r.data|));
    h := Finish(x);
  }

  /** The hash of an input of any length, reading every byte of it and none outside it. */
  method CityHash32(r: Reader) returns (h: bv32)
    modifies r
    ensures h == Hash(r.data) && r.Reached(old(r.read), 0, |r.data|)
  {
    if |r.data| <= 4 {
      h := Hash32Len0to4(r);
    } else if |r.data| <= 12 {
      h := Hash32Len5to12(r);
    } else if |r.data| <= 24 {
      h := Hash32Len13to24(r);
    } else {
      h := HashOver24(r);
    }
  }

  // ---------------------------------------------------------------- inputs that never collide

  lemma {:induction false} MurChainSame(ws: seq<bv32>, g: bv32, h: bv32)
    requires MurChain(ws, g) == MurChain(ws, h)
    ensures g == h
  {
    if ws != [] {
      MurChainSame(ws[1..], Mur(ws[0], g), Mur(ws[0], h));
      MurInjective(ws[0], g, ws[0], h);
    }
  }

  /** Chains over words that differ in exactly one place differ. */
  lemma {:induction false} MurChainDiffers(ws: seq<bv32>, vs: seq<bv32>, h: bv32, k: nat)
    requires |ws| == |vs| && k < |ws| && ws[k] != vs[k] && forall i :: 0 <= i < |ws| && i != k ==> ws[i] == vs[i]
    ensures MurChain(ws, h) != MurChain(vs, h)
  {
    if k > 0 {
      MurChainDiffers(ws[1..], vs[1..], Mur(ws[0], h), k - 1);
    } else {
      assert ws[1..] == vs[1..];
      if MurChain(ws, h) == MurChain(vs, h) {
        MurChainSame(ws[1..], Mur(ws[0], h), Mur(vs[0], h));
        MurInjective(ws[0], h, vs[0], h);
      }
    }
  }

  /** The four-byte word of a 24-byte input that the i-th word of the chain holds. */
  function Place(i: nat): (j: nat)
    requires i < 6
    ensures j < 6
  {
    match i
    case 0 => 2
    case 1 => 1
    case 2 => 4
    case 3 => 3
    case 4 => 0
    case 5 => 5
  }

  lemma PlaceOnto(j: nat)
    requires j < 6
    ensures Place(Place(Place(j))) == j
    ensures forall i :: 0 <= i < 6 && Place(i) == j ==> i == Place(Place(j))
  {
  }

  lemma WordAt(s: Data, i: nat)
    requires |s| == 24 && i < 6
    ensures Words13to24(s)[i] == Load32(s, 4 * Place(i))
  {
  }

  lemma WordsDiffer(s: Data, t: Data, j: nat)
    requires |s| == |t| == 24 && j < 6
    requires forall i :: 0 <= i < 6 ==> (Load32(s, 4 * i) == Load32(t, 4 * i) <==> i != j)
    ensures forall i :: 0 <= i < 6 ==> (Words13to24(s)[i] == Words13to24(t)[i] <==> i != Place(Place(j)))
  {
    PlaceOnto(j);
    forall i | 0 <= i < 6
      ensures Words13to24(s)[i] == Words13to24(t)[i] <==> i != Place(Place(j))
    {
      WordAt(s, i);
      WordAt(t, i);
    }
  }

  /** Two 24-byte inputs that differ in only one of their six four-byte words never collide. */
  lemma OneWordOf24(s: Data, t: Data, j: nat)
    requires |s| == |t| == 24 && j < 6
    requires forall i :: 0 <= i < 6 ==> (s[4 * i..4 * i + 4] == t[4 * i..4 * i + 4] <==> i != j)
    ensures Hash(s) != Hash(t)
  {
    forall i | 0 <= i < 6
      ensures Load32(s, 4 * i) == Load32(t, 4 * i) <==> i != j
    {
      Load32Injective(s, t, 4 * i);
    }
    WordsDiffer(s, t, j);
    ChainsDiffer(Words13to24(s), Words13to24(t), Len32(24), Place(Place(j)));
  }

  lemma ChainsDiffer(ws: seq<bv32>, vs: seq<bv32>, h: bv32, k: nat)
    requires |ws| == |vs| && k < |ws| && forall i :: 0 <= i < |ws| ==> (ws[i] == vs[i] <==> i != k)
    ensures Fmix(MurChain(ws, h)) != Fmix(MurChain(vs, h))
  {
    MurChainDiffers(ws, vs, h, k);
    if Fmix(MurChain(ws, h)) == Fmix(MurChain(vs, h)) {
      FmixInjective(MurChain(ws, h), MurChain(vs, h));
    }
  }

  /** Two register states that differ in exactly one register. */
  predicate OneApart(x: Regs, y: Regs) {
    || (x.f != y.f && x.g == y.g && x.h == y.h)
    || (x.f == y.f && x.g != y.g && x.h == y.h)
    || (x.f == y.f && x.g == y.g && x.h != y.h)
  }

  lemma OpsUndoable()
    ensures Undoable(Bswap()) && Undoable(Rot(18)) && Undoable(Rot(19))
    ensures forall k :: Undoable(Plus(k))
    ensures forall k :: Undoable(Xor(k))
  {
    BswapUndoable();
    RotUndoable(18);
    RotUndoable(19);
    forall k: bv32
      ensures Undoable(Plus(k)) && Undoable(Xor(k))
    {
      PlusUndoable(k);
      XorUndoable(k);
    }
  }

  lemma GRestWf(a: bv32)
    ensures Wf(GRest(a))
  {
    MulsUndoable();
    OpsUndoable();
  }

  lemma HFirstWf(a: bv32)
    ensures Wf(HFirst(a))
  {
    MulsUndoable();
    OpsUndoable();
  }

  lemma HRestWf(a: bv32)
    ensures Wf(HRest(a))
  {
    MulsUndoable();
    OpsUndoable();
  }

  lemma FBlockWf(w: Words)
    ensures Wf(FBlock(w))
  {
    MulsUndoable();
    OpsUndoable();
  }

  lemma GBlockWf(w: Words)
    ensures Wf(GBlock(w))
  {
    GRestWf(w.w4);
    PlusUndoable(Premix(w.w2));
    WfJoin([], Plus(Premix(w.w2)), GRest(w.w4));
  }

  lemma HBlockWf(w: Words)
    ensures Wf(HBlock(w))
  {
    HFirstWf(w.w0);
    HRestWf(w.w4);
    XorUndoable(Add(Premix(w.w3), w.w1));
    WfJoin(HFirst(w.w0), Xor(Add(Premix(w.w3), w.w1)), HRest(w.w4));
  }

  lemma WfJoin(p: Program, op: Op, q: Program)
    requires Wf(p) && Undoable(op) && Wf(q)
    ensures Wf(p + [op] + q)
  {
  }

  lemma Differs(p: Program, x: bv32, y: bv32)
    requires Wf(p)
    ensures Apply(p, x) == Apply(p, y) <==> x == y
  {
    if Apply(p, x) == Apply(p, y) {
      ProgramInjective(p, x, y);
    }
  }

  /** For given words a block permutes the registers' 96 bits, and keeps one-register differences so. */
  lemma BlockPermutes(x: Regs, y: Regs, w: Words)
    ensures Block(x, w) == Block(y, w) <==> x == y
    ensures OneApart(x, y) ==> OneApart(Block(x, w), Block(y, w))
  {
    FBlockWf(w);
    GBlockWf(w);
    HBlockWf(w);
    Differs(FBlock(w), x.f, y.f);
    Differs(GBlock(w), x.g, y.g);
    Differs(HBlock(w), x.h, y.h);
  }

  lemma AddSwaps(x: bv32, k: bv32)
    ensures Add(k, x) == Add(x, k)
  {
  }

  lemma SumsSame(x: bv32, y: bv32, k: bv32)
    requires Add(x, k) == Add(y, k)
    ensures x == y
  {
    AddInverse(x, k);
    AddInverse(y, k);
  }

  lemma AddSame(x: bv32, y: bv32, k: bv32)
    ensures Add(x, k) == Add(y, k) ==> x == y
    ensures Add(k, x) == Add(k, y) ==> x == y
  {
    AddSwaps(x, k);
    AddSwaps(y, k);
    if Add(x, k) == Add(y, k) {
      SumsSame(x, y, k);
    }
  }

  lemma {:induction false} ApplyJoin(p: Program, q: Program, x: bv32)
    ensures Apply(p + q, x) == Apply(q, Apply(p, x))
  {
    if p == [] {
      assert p + q == q;
    } else {
      ApplyJoin(p[1..], q, p[0].do(x));
      assert (p + q)[1..] == p[1..] + q;
    }
  }

  lemma ApplyMiddle(p: Program, op: Op, q: Program, x: bv32)
    ensures Apply(p + [op] + q, x) == Apply(q, op.do(Apply(p, x)))
  {
    ApplyJoin(p + [op], q, x);
    ApplyJoin(p, [op], x);
    assert [op][1..] == [];
  }

  /** A step whose operand changes its result changes the program's. */
  lemma MiddleDiffers(p: Program, a: Op, b: Op, q: Program, x: bv32)
    requires Wf(q) && a.do(Apply(p, x)) != b.do(Apply(p, x))
    ensures Apply(p + [a] + q, x) != Apply(p + [b] + q, x)
  {
    ApplyMiddle(p, a, q, x);
    ApplyMiddle(p, b, q, x);
    Differs(q, a.do(Apply(p, x)), b.do(Apply(p, x)));
  }

  /** The third word of a block goes into one register only. */
  lemma ThirdWordDiffers(x: Regs, w: Words, v: Words)
    requires w.w2 != v.w2 && w == v.(w2 := w.w2)
    ensures OneApart(Block(x, w), Block(x, v))
  {
    PremixWf();
    GRestWf(w.w4);
    Differs(PremixSteps(), w.w2, v.w2);
    AddSame(Premix(w.w2), Premix(v.w2), x.g);
    MiddleDiffers([], Plus(Premix(w.w2)), Plus(Premix(v.w2)), GRest(w.w4), x.g);
  }

  /** So does the fourth. */
  lemma FourthWordDiffers(x: Regs, w: Words, v: Words)
    requires w.w3 != v.w3 && w == v.(w3 := w.w3)
    ensures OneApart(Block(x, w), Block(x, v))
  {
    PremixWf();
    HRestWf(w.w4);
    Differs(PremixSteps(), w.w3, v.w3);
    var a, b := Add(Premix(w.w3), w.w1), Add(Premix(v.w3), v.w1);
    AddSame(Premix(w.w3), Premix(v.w3), w.w1);
    XorSame(a, b, Apply(HFirst(w.w0), x.h));
    MiddleDiffers(HFirst(w.w0), Xor(a), Xor(b), HRest(w.w4), x.h);
  }

  lemma FinishWf()
    ensures Wf(TailSteps()) && Wf(SumSteps())
  {
    MulsUndoable();
    RotUndoable(11);
    RotUndoable(17);
    RotUndoable(19);
    PlusUndoable(MUR);
  }

  /** The end of the hash tells apart registers that differ in exactly one place. */
  lemma FinishDiffers(x: Regs, y: Regs)
    requires OneApart(x, y)
    ensures Finish(x) != Finish(y)
  {
    FinishWf();
    var g, g' := Apply(TailSteps(), x.g), Apply(TailSteps(), y.g);
    var f, f' := Apply(TailSteps(), x.f), Apply(TailSteps(), y.f);
    Differs(TailSteps(), x.g, y.g);
    Differs(TailSteps(), x.f, y.f);
    AddSame(x.h, y.h, g);
    AddSame(g, g', x.h);
    Differs(SumSteps(), Add(x.h, g), Add(y.h, g'));
    var h, h' := Apply(SumSteps(), Add(x.h, g)), Apply(SumSteps(), Add(y.h, g'));
    AddSame(h, h', f);
    AddSame(f, f', h);
    Differs(SumSteps(), Add(h, f), Add(h', f'));
  }

  /** Words that differ only in their third, or only in their fourth. */
  predicate WordApart(w: Words, v: Words, c: nat) {
    if c == 2 then w.w2 != v.w2 && w == v.(w2 := w.w2) else c == 3 && w.w3 != v.w3 && w == v.(w3 := w.w3)
  }

  lemma WordDiffers(x: Regs, w: Words, v: Words, c: nat)
    requires WordApart(w, v, c)
    ensures OneApart(Block(x, w), Block(x, v))
  {
    if c == 2 {
      ThirdWordDiffers(x, w, v);
    } else {
      FourthWordDiffers(x, w, v);
    }
  }

  ghost predicate KeepsApart(turn: (Regs, Words) -> Regs) {
    forall x, y, w :: OneApart(x, y) ==> OneApart(turn(x, w), turn(y, w))
  }

  lemma BlockKeepsApart()
    ensures KeepsApart(Block)
  {
    forall x, y, w | OneApart(x, y)
      ensures OneApart(Block(x, w), Block(y, w))
    {
      BlockPermutes(x, y, w);
    }
  }

  /** The inputs agree in their blocks from one up to another. */
  ghost predicate SameBlocks(s: Data, t: Data, from: nat, to: nat)
    requires 20 * to <= |s| == |t|
  {
    forall i :: from <= i < to ==> LoadWords(s, 20 * i) == LoadWords(t, 20 * i)
  }

  lemma {:induction false} BlocksSame(turn: (Regs, Words) -> Regs, s: Data, t: Data, k: nat, x: Regs)
    requires 20 * k <= |s| == |t| && SameBlocks(s, t, 0, k)
    ensures Blocks(turn, s, k, x) == Blocks(turn, t, k, x)
  {
    if k > 0 {
      BlocksSame(turn, s, t, k - 1, x);
    }
  }

  /** Once apart in one register, apart in one register until the end. */
  lemma {:induction false} BlocksApart(turn: (Regs, Words) -> Regs, s: Data, t: Data, j: nat, k: nat, x: Regs)
    requires KeepsApart(turn)
    requires j <= k && 20 * k <= |s| == |t| && OneApart(Blocks(turn, s, j, x), Blocks(turn, t, j, x))
    requires SameBlocks(s, t, j, k)
    ensures OneApart(Blocks(turn, s, k, x), Blocks(turn, t, k, x))
  {
    if j < k {
      BlocksApart(turn, s, t, j, k - 1, x);
    }
  }

  ghost predicate SetsApart(turn: (Regs, Words) -> Regs, w: Words, v: Words) {
    forall x :: OneApart(turn(x, w), turn(x, v))
  }

  /** Inputs whose blocks agree but for one that sets one register apart. */
  lemma LoopApart(turn: (Regs, Words) -> Regs, s: Data, t: Data, j: nat, k: nat, x: Regs)
    requires KeepsApart(turn) && j < k && 20 * k <= |s| == |t|
    requires SameBlocks(s, t, 0, j) && SetsApart(turn, LoadWords(s, 20 * j), LoadWords(t, 20 * j))
    requires SameBlocks(s, t, j + 1, k)
    ensures OneApart(Blocks(turn, s, k, x), Blocks(turn, t, k, x))
  {
    BlocksSame(turn, s, t, j, x);
    BlockSetsApart(turn, s, t, j, x);
    BlocksApart(turn, s, t, j + 1, k, x);
  }

  lemma BlockSetsApart(turn: (Regs, Words) -> Regs, s: Data, t: Data, j: nat, x: Regs)
    requires 20 * (j + 1) <= |s| == |t| && Blocks(turn, s, j, x) == Blocks(turn, t, j, x)
    requires SetsApart(turn, LoadWords(s, 20 * j), LoadWords(t, 20 * j))
    ensures OneApart(Blocks(turn, s, j + 1, x), Blocks(turn, t, j + 1, x))
  {
  }

  /** Equal bytes load as equal words. */
  lemma SameWords(s: Data, t: Data, p: nat)
    requires p + 20 <= |s| == |t| && forall i :: p <= i < p + 20 ==> s[i] == t[i]
    ensures LoadWords(s, p) == LoadWords(t, p)
  {
  }

  lemma ApartInBlock(s: Data, t: Data, p: nat, c: nat)
    requires p + 20 <= |s| == |t| && (c == 2 || c == 3) && s[p + 4 * c..p + 4 * c + 4] != t[p + 4 * c..p + 4 * c + 4]
    requires forall i :: p <= i < p + 20 && !(p + 4 * c <= i < p + 4 * c + 4) ==> s[i] == t[i]
    ensures WordApart(LoadWords(s, p), LoadWords(t, p), c)
  {
    Load32Injective(s, t, p + 4 * c);
  }

  lemma HashesDiffer(s: Data, t: Data, j: nat, c: nat, x: Regs)
    requires |s| == |t| > 24 && j < (|s| - 1) / 20 && WordApart(LoadWords(s, 20 * j), LoadWords(t, 20 * j), c)
    requires SameBlocks(s, t, 0, j) && SameBlocks(s, t, j + 1, (|s| - 1) / 20)
    ensures Finish(Blocks(Block, s, (|s| - 1) / 20, x)) != Finish(Blocks(Block, t, (|s| - 1) / 20, x))
  {
    var k := (|s| - 1) / 20;
    BlockKeepsApart();
    forall y
      ensures OneApart(Block(y, LoadWords(s, 20 * j)), Block(y, LoadWords(t, 20 * j)))
    {
      WordDiffers(y, LoadWords(s, 20 * j), LoadWords(t, 20 * j), c);
    }
    LoopApart(Block, s, t, j, k, x);
    FinishDiffers(Blocks(Block, s, k, x), Blocks(Block, t, k, x));
  }

  lemma OtherBlock(s: Data, t: Data, j: nat, p: nat, i: nat)
    requires |s| == |t| && 20 * i + 20 <= |s| && i != j && 20 * j <= p <= 20 * j + 16
    requires forall b :: 0 <= b < |s| && !(p <= b < p + 4) ==> s[b] == t[b]
    ensures LoadWords(s, 20 * i) == LoadWords(t, 20 * i)
  {
    SameWords(s, t, 20 * i);
  }

  lemma LongHash(s: Data)
    requires |s| > 24
    ensures Hash(s) == Finish(Blocks(Block, s, (|s| - 1) / 20, Start(LoadWords(s, |s| - 20), |s|)))
  {
  }

  /**
    For every length over 24: two inputs that differ only in the third or the fourth word of a block, clear of
    the last twenty bytes, never collide.
   */
  lemma OneWordOfABlock(s: Data, t: Data, j: nat, c: nat, p: nat)
    requires |s| == |t| > 24 && (c == 2 || c == 3) && p == 20 * j + 4 * c && p + 4 <= |s| - 20
    requires s[p..p + 4] != t[p..p + 4] && forall b :: 0 <= b < |s| && !(p <= b < p + 4) ==> s[b] == t[b]
    ensures Hash(s) != Hash(t)
  {
    forall i | 0 <= i < (|s| - 1) / 20 && i != j
      ensures LoadWords(s, 20 * i) == LoadWords(t, 20 * i)
    {
      OtherBlock(s, t, j, p, i);
    }
    ApartInBlock(s, t, 20 * j, c);
    SameWords(s, t, |s| - 20);
    HashesDiffer(s, t, j, c, Start(LoadWords(s, |s| - 20), |s|));
    LongHash(s);
    LongHash(t);
  }

  // ---------------------------------------------------------------- short inputs that never collide

  /** The words that lengths 5 to 12 mix, each on its own offset. */
  function Words5to12(s: Data): seq<bv32>
    requires 5 <= |s| <= 12
  {
    var a := Len32(|s|);
    [Add(a, Load32(s, 0)), Add(Times(a, 5), Load32(s, |s| - 4)), Add(9, Load32(s, if |s| < 8 then 0 else 4))]
  }

  lemma {:induction false} Chain3(a: bv32, b: bv32, c: bv32, h: bv32)
    ensures MurChain([a, b, c], h) == Mur(c, Mur(b, Mur(a, h)))
  {
    assert [a, b, c][1..] == [b, c] && [b, c][1..] == [c] && [c][1..] == [];
    assert MurChain([c], Mur(b, Mur(a, h))) == MurChain([], Mur(c, Mur(b, Mur(a, h))));
    assert MurChain([b, c], Mur(a, h)) == MurChain([c], Mur(b, Mur(a, h)));
  }

  lemma Chain5to12(s: Data)
    requires 5 <= |s| <= 12
    ensures Hash(s) == Fmix(MurChain(Words5to12(s), Times(Len32(|s|), 5)))
  {
    var ws := Words5to12(s);
    Chain3(ws[0], ws[1], ws[2], Times(Len32(|s|), 5));
  }

  lemma OffsetTells(k: bv32, s: Data, t: Data, p: nat)
    requires p + 4 <= |s| == |t|
    ensures Add(k, Load32(s, p)) == Add(k, Load32(t, p)) <==> s[p..p + 4] == t[p..p + 4]
  {
    Load32Injective(s, t, p);
    AddSame(Load32(s, p), Load32(t, p), k);
  }

  lemma ShortWordsDiffer(s: Data, t: Data, k: nat)
    requires 5 <= |s| == |t| <= 12 && k < 3
    requires forall i :: 0 <= i < 3 ==> (Words5to12(s)[i] == Words5to12(t)[i] <==> i != k)
    ensures Hash(s) != Hash(t)
  {
    Chain5to12(s);
    Chain5to12(t);
    ChainsDiffer(Words5to12(s), Words5to12(t), Times(Len32(|s|), 5), k);
  }

  lemma AfterFirst(s: Data, t: Data, p: nat)
    requires 4 <= p && p + 4 <= |s| == |t| && s[4..] == t[4..]
    ensures s[p..p + 4] == t[p..p + 4]
  {
    forall i | p <= i < p + 4
      ensures s[i] == t[i]
    {
      assert s[i] == s[4..][i - 4] && t[i] == t[4..][i - 4];
    }
  }

  /** Two inputs of one length from eight to twelve that differ only in their first four bytes never collide. */
  lemma FirstWordOf8to12(s: Data, t: Data)
    requires 8 <= |s| == |t| <= 12 && s[4..] == t[4..] && s != t
    ensures Hash(s) != Hash(t)
  {
    var n, a := |s|, Len32(|s|);
    AfterFirst(s, t, 4);
    AfterFirst(s, t, n - 4);
    assert s == s[0..4] + s[4..] && t == t[0..4] + t[4..];
    OffsetTells(a, s, t, 0);
    OffsetTells(Times(a, 5), s, t, n - 4);
    OffsetTells(9, s, t, 4);
    ShortWordsDiffer(s, t, 0);
  }

  /** Two 12-byte inputs that differ in only one of their three four-byte words never collide. */
  lemma OneWordOf12(s: Data, t: Data, j: nat)
    requires |s| == |t| == 12 && j < 3
    requires forall i :: 0 <= i < 3 ==> (s[4 * i..4 * i + 4] == t[4 * i..4 * i + 4] <==> i != j)
    ensures Hash(s) != Hash(t)
  {
    var a := Len32(12);
    assert s[4 * 0..4 * 0 + 4] == t[4 * 0..4 * 0 + 4] <==> 0 != j;
    assert s[4 * 1..4 * 1 + 4] == t[4 * 1..4 * 1 + 4] <==> 1 != j;
    assert s[4 * 2..4 * 2 + 4] == t[4 * 2..4 * 2 + 4] <==> 2 != j;
    OffsetTells(a, s, t, 0);
    OffsetTells(Times(a, 5), s, t, 8);
    OffsetTells(9, s, t, 4);
    ShortWordsDiffer(s, t, if j == 0 then 0 else 3 - j);
  }
}
