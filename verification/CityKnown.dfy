/**
  CityHash32's mixing in plain operations, and the hashes of a few inputs, at least one for each of the ways
  that the code takes by length.
 */
module CityKnown {
  import opened CityMix
  import opened CityReader
  import opened CityHash32

  lemma {:induction false} Apply3(a: Op, b: Op, c: Op, x: bv32)
    ensures Apply([a, b, c], x) == c.do(b.do(a.do(x)))
  {
    assert [a, b, c][1..] == [b, c] && [b, c][1..] == [c] && [c][1..] == [];
    assert Apply([c], b.do(a.do(x))) == Apply([], c.do(b.do(a.do(x))));
    assert Apply([b, c], a.do(x)) == Apply([c], b.do(a.do(x)));
  }

  lemma {:induction false} Apply5(a: Op, b: Op, c: Op, d: Op, e: Op, x: bv32)
    ensures Apply([a, b, c, d, e], x) == e.do(d.do(c.do(b.do(a.do(x)))))
  {
    Apply3(c, d, e, b.do(a.do(x)));
    assert [a, b, c, d, e][1..] == [b, c, d, e] && [b, c, d, e][1..] == [c, d, e];
  }

  lemma FmixIs(h: bv32)
    ensures Fmix(h) == Xor16(Times(Xor13(Times(Xor16(h), 0x85ebca6b)), 0xc2b2ae35))
  {
    Apply5(XorShift16(), MulF1(), XorShift13(), MulF2(), XorShift16(), h);
  }

  lemma MurIs(a: bv32, h: bv32)
    ensures Mur(a, h) ==
            Add(Times(Rotate32(XorWith(h, Times(Rotate32(Times(a, 0xcc9e2d51), 17), 0x1b873593)), 19), 5), 0xe6546b64)
  {
    Apply3(MulC1(), Rot(17), MulC2(), a);
    Apply3(Rot(19), Mul5(), Plus(MUR), XorWith(h, Premix(a)));
  }

  /** The hash of no bytes. */
  lemma KnownEmpty()
    ensures Hash([]) == 0xdc56d17a
  {
    MurIs(0, 9);
    assert Mur(0, 9) == 0xe65a0b64;
    MurIs(0, 0xe65a0b64);
    assert Mur(0, 0xe65a0b64) == 0x2d737b5b;
    FmixIs(0x2d737b5b);
  }

  lemma MixOfByte()
    ensures Mur(0xffffffc8, Mur(1, 0xffffffc1)) == 0x3d67204d && Fmix(0x3d67204d) == 0xcf23c5af
  {
    MurIs(1, 0xffffffc1);
    assert Mur(1, 0xffffffc1) == 0xa5d6114d;
    MurIs(0xffffffc8, 0xa5d6114d);
    FmixIs(0x3d67204d);
  }

  lemma FoldOfByte()
    ensures Fold([0xc8], 1) == (0xffffffc8, 0xffffffc1) && Len32(1) == 1
  {
    assert Fold([0xc8], 0) == (0, 9);
  }

  /** A byte above 127 counts as negative. */
  lemma KnownByte()
    ensures Hash([0xc8]) == 0xcf23c5af
  {
    FoldOfByte();
    MixOfByte();
  }

  lemma WordsOfFive()
    ensures Words5to12([0xc8, 0xd9, 0xea, 0xfb, 0x0c]) == [0xfbead9cd, 0x0cfbeaf2, 0xfbead9d1]
    ensures Times(Len32(5), 5) == 0x19
  {
  }

  lemma MixOfFive()
    ensures Mur(0xfbead9d1, Mur(0x0cfbeaf2, Mur(0xfbead9cd, 0x19))) == 0xc98cd42c && Fmix(0xc98cd42c) == 0x4ac2f72b
  {
    MurIs(0xfbead9cd, 0x19);
    assert Mur(0xfbead9cd, 0x19) == 0x12c08b2e;
    MurIs(0x0cfbeaf2, 0x12c08b2e);
    assert Mur(0x0cfbeaf2, 0x12c08b2e) == 0xffcf5e4b;
    MurIs(0xfbead9d1, 0xffcf5e4b);
    FmixIs(0xc98cd42c);
  }

  lemma KnownFive()
    ensures Hash([0xc8, 0xd9, 0xea, 0xfb, 0x0c]) == 0x4ac2f72b
  {
    WordsOfFive();
    Chain5to12([0xc8, 0xd9, 0xea, 0xfb, 0x0c]);
    Chain3(0xfbead9cd, 0x0cfbeaf2, 0xfbead9d1, 0x19);
    MixOfFive();
  }

  lemma WordsOfFifteen()
    ensures Words13to24([0xc8, 0xd9, 0xea, 0xfb, 0x0c, 0x1d, 0x2e, 0x3f, 0x50, 0x61, 0x72, 0x83, 0x94, 0xa5, 0xb6]) ==
            [0x2e1d0cfb, 0x3f2e1d0c, 0x7261503f, 0x7261503f, 0xfbead9c8, 0xb6a59483]
  {
  }

  lemma LengthFifteen()
    ensures Len32(15) == 0xf
  {
  }

  lemma FirstOfFifteen()
    ensures Mur(0x7261503f, Mur(0x3f2e1d0c, Mur(0x2e1d0cfb, 0xf))) == 0x8e0f2e64
  {
    MurIs(0x2e1d0cfb, 0xf);
    assert Mur(0x2e1d0cfb, 0xf) == 0x418036fa;
    MurIs(0x3f2e1d0c, 0x418036fa);
    assert Mur(0x3f2e1d0c, 0x418036fa) == 0x260ccf48;
    MurIs(0x7261503f, 0x260ccf48);
  }

  lemma LastOfFifteen()
    ensures Mur(0xb6a59483, Mur(0xfbead9c8, Mur(0x7261503f, 0x8e0f2e64))) == 0xed4b551b
  {
    MurIs(0x7261503f, 0x8e0f2e64);
    assert Mur(0x7261503f, 0x8e0f2e64) == 0xd18ae564;
    MurIs(0xfbead9c8, 0xd18ae564);
    assert Mur(0xfbead9c8, 0xd18ae564) == 0xe4f0e13;
    MurIs(0xb6a59483, 0xe4f0e13);
  }

  lemma {:induction false} Chain6(a: bv32, b: bv32, c: bv32, d: bv32, e: bv32, f: bv32, h: bv32)
    ensures MurChain([a, b, c, d, e, f], h) == Mur(f, Mur(e, Mur(d, Mur(c, Mur(b, Mur(a, h))))))
  {
    ChainJoin([a, b, c], [d, e, f], h);
    assert [a, b, c] + [d, e, f] == [a, b, c, d, e, f];
    Chain3(a, b, c, h);
    Chain3(d, e, f, MurChain([a, b, c], h));
  }

  lemma {:induction false} ChainJoin(ws: seq<bv32>, vs: seq<bv32>, h: bv32)
    ensures MurChain(ws + vs, h) == MurChain(vs, MurChain(ws, h))
    decreases |ws|
  {
    if ws == [] {
      assert ws + vs == vs;
    } else {
      ChainJoin(ws[1..], vs, Mur(ws[0], h));
      assert (ws + vs)[1..] == ws[1..] + vs;
    }
  }

  lemma KnownFifteen()
    ensures Hash([0xc8, 0xd9, 0xea, 0xfb, 0x0c, 0x1d, 0x2e, 0x3f, 0x50, 0x61, 0x72, 0x83, 0x94, 0xa5, 0xb6]) == 0x5976701b
  {
    WordsOfFifteen();
    LengthFifteen();
    Chain6(0x2e1d0cfb, 0x3f2e1d0c, 0x7261503f, 0x7261503f, 0xfbead9c8, 0xb6a59483, 0xf);
    FirstOfFifteen();
    LastOfFifteen();
    FmixIs(0xed4b551b);
  }

  // The answer for 25 bytes: the last twenty of them, one block, and the end.

  lemma {:induction false} Apply4(a: Op, b: Op, c: Op, d: Op, x: bv32)
    ensures Apply([a, b, c, d], x) == d.do(c.do(b.do(a.do(x))))
  {
    Apply3(b, c, d, a.do(x));
    assert [a, b, c, d][1..] == [b, c, d];
  }

  lemma {:induction false} Apply6(a: Op, b: Op, c: Op, d: Op, e: Op, f: Op, x: bv32)
    ensures Apply([a, b, c, d, e, f], x) == f.do(e.do(d.do(c.do(b.do(a.do(x))))))
  {
    Apply5(b, c, d, e, f, a.do(x));
    assert [a, b, c, d, e, f][1..] == [b, c, d, e, f];
  }

  function Sample(): Data {
    [0xc8, 0xd9, 0xea, 0xfb, 0x0c, 0x1d, 0x2e, 0x3f, 0x50, 0x61, 0x72, 0x83, 0x94, 0xa5, 0xb6, 0xc7, 0xd8, 0xe9,
      0xfa, 0x0b, 0x1c, 0x2d, 0x3e, 0x4f, 0x60]
  }

  lemma SampleWords()
    ensures LoadWords(Sample(), 0) == Words(0xfbead9c8, 0x3f2e1d0c, 0x83726150, 0xc7b6a594, 0xbfae9d8)
    ensures LoadWords(Sample(), 5) == Words(0x503f2e1d, 0x94837261, 0xd8c7b6a5, 0x1c0bfae9, 0x604f3e2d)
  {
  }

  lemma Lengths()
    ensures Len32(25) == 0x19 && Times(0x19, C1) == 0xfb726ce9
  {
  }

  lemma FStarts()
    ensures Apply(MurSteps(), Add(0xfb726ce9, Premix(0x503f2e1d))) == 0xb5da8c03
  {
    Apply3(MulC1(), Rot(17), MulC2(), 0x503f2e1d);
    Apply3(Rot(19), Mul5(), Plus(MUR), 0x9a9e18d6);
  }

  lemma GStarts()
    ensures Mur(0xd8c7b6a5, Mur(0x1c0bfae9, 0xfb726ce9)) == 0x7e256217
  {
    MurIs(0x1c0bfae9, 0xfb726ce9);
    assert Mur(0x1c0bfae9, 0xfb726ce9) == 0xda4bf9b1;
    MurIs(0xd8c7b6a5, 0xda4bf9b1);
  }

  lemma HStarts()
    ensures Mur(0x94837261, Mur(0x604f3e2d, 0x19)) == 0x3c0ef087
  {
    MurIs(0x604f3e2d, 0x19);
    assert Mur(0x604f3e2d, 0x19) == 0x5b0cc99c;
    MurIs(0x94837261, 0x5b0cc99c);
  }

  lemma SampleStarts()
    ensures Start(Words(0x503f2e1d, 0x94837261, 0xd8c7b6a5, 0x1c0bfae9, 0x604f3e2d), 25) ==
            Regs(0xb5da8c03, 0x7e256217, 0x3c0ef087)
  {
    Lengths();
    FStarts();
    GStarts();
    HStarts();
  }

  lemma PremixSample()
    ensures Premix(0xfbead9c8) == 0x944339 && Premix(0x83726150) == 0x2adc534f && Premix(0xc7b6a594) == 0x441e12ba
  {
    Apply3(MulC1(), Rot(17), MulC2(), 0xfbead9c8);
    Apply3(MulC1(), Rot(17), MulC2(), 0x83726150);
    Apply3(MulC1(), Rot(17), MulC2(), 0xc7b6a594);
  }

  lemma FOfSample()
    ensures Apply(FBlock(Words(0xfbead9c8, 0x3f2e1d0c, 0x83726150, 0xc7b6a594, 0xbfae9d8)), 0xb5da8c03) == 0x1d76212a
  {
    PremixSample();
    Apply4(Plus(0x3f2e1d0c), Rot(19), MulC1(), Plus(0x944339), 0xb5da8c03);
  }

  lemma GOfSample()
    ensures Apply(GBlock(Words(0xfbead9c8, 0x3f2e1d0c, 0x83726150, 0xc7b6a594, 0xbfae9d8)), 0x7e256217) == 0x6db7a60a
  {
    PremixSample();
    ApplyMiddle([], Plus(0x2adc534f), GRest(0xbfae9d8), 0x7e256217);
    Apply6(Rot(18), Mul5(), Plus(MUR), Xor(0xbfae9d8), Bswap(), Mul5(), 0xa901b566);
  }

  lemma HOfSample()
    ensures Apply(HBlock(Words(0xfbead9c8, 0x3f2e1d0c, 0x83726150, 0xc7b6a594, 0xbfae9d8)), 0x3c0ef087) == 0x49f7c9f1
  {
    PremixSample();
    Apply4(Xor(0x944339), Rot(18), Mul5(), Plus(MUR), 0x3c0ef087);
    ApplyMiddle(HFirst(0xfbead9c8), Xor(0x834c2fc6), HRest(0xbfae9d8), 0x3c0ef087);
    Apply5(Rot(19), Mul5(), Plus(MUR), Plus(0x3be69138), Bswap(), 0xc44e18e4);
  }

  lemma SampleEnds()
    ensures Finish(Regs(0x6db7a60a, 0x49f7c9f1, 0x1d76212a)) == 0x358eae10
  {
    Apply4(Rot(11), MulC1(), Rot(17), MulC1(), 0x49f7c9f1);
    Apply4(Rot(11), MulC1(), Rot(17), MulC1(), 0x6db7a60a);
    Apply5(Rot(19), Mul5(), Plus(MUR), Rot(17), MulC1(), 0xffe2e970);
    Apply5(Rot(19), Mul5(), Plus(MUR), Rot(17), MulC1(), 0x33a37948);
  }

  lemma Turn(start: (Words, nat) -> Regs, turn: (Regs, Words) -> Regs, finish: Regs -> bv32, s: Data)
    requires |s| == 25
    ensures finish(Blocks(turn, s, (|s| - 1) / 20, start(LoadWords(s, |s| - 20), |s|))) ==
            finish(turn(start(LoadWords(s, 5), 25), LoadWords(s, 0)))
  {
    var x := start(LoadWords(s, 5), 25);
    assert Blocks(turn, s, 1, x) == turn(Blocks(turn, s, 0, x), LoadWords(s, 0));
  }

  lemma OneBlock(s: Data)
    requires |s| == 25
    ensures Hash(s) == Finish(Block(Start(LoadWords(s, 5), 25), LoadWords(s, 0)))
  {
    Turn(Start, Block, Finish, s);
  }

  lemma KnownLong()
    ensures Hash([0xc8, 0xd9, 0xea, 0xfb, 0x0c, 0x1d, 0x2e, 0x3f, 0x50, 0x61, 0x72, 0x83, 0x94, 0xa5, 0xb6, 0xc7,
            0xd8, 0xe9, 0xfa, 0x0b, 0x1c, 0x2d, 0x3e, 0x4f, 0x60]) == 0x358eae10
  {
    SampleWords();
    SampleStarts();
    FOfSample();
    GOfSample();
    HOfSample();
    SampleEnds();
    OneBlock(Sample());
  }
}
