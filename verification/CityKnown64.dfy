/**
  The mixing functions of CityHash64 and CityHash128 at one place each, worked out: any change to a constant,
  a rotation or the order of the words would show.
 */
module CityKnown64 {
  import opened CityMix
  import opened CityMix64

  lemma Three()
    ensures Len64(3) == 3
  {
    assert 3 % 0x1_0000_0000_0000_0000 == 3;
  }

  lemma MulOfThree()
    ensures Mul(3) == 0x9ae16a3b2f904055
  {
    Three();
  }

  lemma ThreeIn32()
    ensures (3 % 0x1_0000_0000) as bv32 == 3
  {
    assert 3 % 0x1_0000_0000 == 3;
  }

  lemma KnownHashLen16()
    ensures HashLen16(0x1122334455667788, 0x99aabbccddeeff01) == 0x2e7c154436a04375
  {
  }

  lemma Known1to3()
    ensures Mix1to3(0xc8, 0xd9, 0xea, 3) == 0x5e6574bfd8134630
  {
    ThreeIn32();
  }

  lemma Known4to7()
    ensures Mix4to7(0x89abcdef, 0xfedcba98, 3) == 0x83d0e464766399ef
  {
    Three();
    MulOfThree();
  }

  lemma Known8to16()
    ensures Mix8to16(0x1122334455667788, 0x99aabbccddeeff01, 3) == 0x8974eccaa85c3e88
  {
    Three();
    MulOfThree();
  }

  lemma KnownMixFour()
    ensures MixFour(0x1122334455667788, 0x99aabbccddeeff01, 0xf1e2d3c4b5a6978, 0x8796a5b4c3d2e1f0,
            0x9ae16a3b2f904055) == 0xfa6fcbbcc1e2194
  {
    assert Times64(0x1122334455667788, K1) == 0xdac0e5f322c64218;
    assert Times64(0xf1e2d3c4b5a6978, 0x9ae16a3b2f904055) == 0xc40e12bbfae304d8;
    assert Times64(0x8796a5b4c3d2e1f0, K2) == 0x4da3a4274d8fb910;
    assert Rotate(0x746ba1c000b54119, 43) == 0x380016a8232e8d74;
    assert Rotate(0xc40e12bbfae304d8, 30) == 0xeb8c136310384aef;
    assert Rotate(0x348c26080d7f3f50, 18) == 0xcfd40d230982035f;
  }

  lemma Known17to32()
    ensures Mix17to32(0x1122334455667788, 0x99aabbccddeeff01, 0xf1e2d3c4b5a6978, 0x8796a5b4c3d2e1f0, 3) ==
            0xfa6fcbbcc1e2194
  {
    MulOfThree();
    KnownMixFour();
  }

  lemma KnownMixEight()
    ensures MixEight(Words4(0x1122334455667788, 0x99aabbccddeeff01, 0xf1e2d3c4b5a6978, 0x8796a5b4c3d2e1f0),
                      Words4(0x13579bdf02468ace, 0xfedcba9876543210, 0x123456789abcdef5, 0xc0ffee1234567891),
                        0x9ae16a3b2f904055) == 0xb200e798f2cf48
  {
    assert Times64(0x1122334455667788, 0x9ae16a3b2f90404f) == 0x33209d5d2d00e2f8;
    assert Times64(0xf1e2d3c4b5a6978, 0x9ae16a3b2f90404f) == 0x6959035236c48c08;
    assert Times64(0x8796a5b4c3d2e1f0, 0x9) == 0xc44bd35ae269f170;
    assert Times64(0x123456789abcdef5, 0x9ae16a3b2f904055) == 0x1e6c685dfd434759;
    assert Rotate(0xf4208b6f61575b89, 43) == 0x6dec2aeb713e8411;
    assert Rotate(0x99aabbccddeeff01, 30) == 0x77bbfc0666aaef33;
    assert Times64(0x7698b69edcff2143, 0x9) == 0x2b5e6b95c4f82b5b;
    assert Times64(0x450d7a8c7bb27224, 0x9ae16a3b2f904055) == 0x64df5d327f08e5f4;
    assert Bswap64(0x64df5d327f08e5f4) == 0xf4e5087f325ddf64;
    assert Times64(0xbf1454e8751ce975, 0x9ae16a3b2f904055) == 0x7f65bd8ce9c6c3d9;
    assert Bswap64(0x7f65bd8ce9c6c3d9) == 0xd9c3c6e98cbd657f;
    assert Times64(0x9ac3b4fbc113de10, 0x9ae16a3b2f904055) == 0xdbe0167dec1cbb50;
    assert Rotate(0x2da4d6ad192e7d78, 42) == 0xab464b9f5e0b6935;
    assert Times64(0xd6a4977d63e24acd, 0x9ae16a3b2f904055) == 0x6eb17fdf73261611;
    assert Bswap64(0x4a91965d5f42d161) == 0x61d1425f5d96914a;
    assert Times64(0x27fd8f71cb083fd3, 0x9ae16a3b2f904055) == 0x7b1cdf871d61f10f;
    assert ShiftMix(0xace0e3c41cebc336) == 0xace0e3c41cea9af7;
    assert Times64(0xace0e3c41cea9af7, 0x9ae16a3b2f904055) == 0x568efaafc4933403;
  }

  lemma Known33to64()
    ensures Mix33to64(Words4(0x1122334455667788, 0x99aabbccddeeff01, 0xf1e2d3c4b5a6978, 0x8796a5b4c3d2e1f0),
                      Words4(0x13579bdf02468ace, 0xfedcba9876543210, 0x123456789abcdef5, 0xc0ffee1234567891), 3) ==
                        0xb200e798f2cf48
  {
    MulOfThree();
    KnownMixEight();
  }

  lemma KnownWeak()
    ensures Weak(Words4(0x1122334455667788, 0x99aabbccddeeff01, 0xf1e2d3c4b5a6978, 0x8796a5b4c3d2e1f0),
            0x13579bdf02468ace, 0xfedcba9876543210) == (0x54d95de144c94cbf, 0x47f493e16e255b0f)
  {
  }

  lemma KnownStart64()
    ensures Start64(Words4(0x1122334455667788, 0x99aabbccddeeff01, 0xf1e2d3c4b5a6978, 0x8796a5b4c3d2e1f0),
                    Words4(0x13579bdf02468ace, 0xfedcba9876543210, 0x123456789abcdef5, 0xc0ffee1234567891),
                      0x1122334455667788, 3) ==
            State(0x5f0ee48bed36d658, 0xabdf124578abddf6, 0x428955bd2be7d501, (0x4181c2024282c1f4,
              0xdf6e051c6727c865), (0x45da63b77ef2e4cd, 0x73cbd43dfd16826b))
  {
    Three();
  }

  lemma KnownTurn()
    ensures Turn(State(0x1122334455667788, 0x99aabbccddeeff01, 0xf1e2d3c4b5a6978, (0x8796a5b4c3d2e1f0,
            0x13579bdf02468ace), (0xfedcba9876543210, 0x123456789abcdef5)),
                 Words4(0x1122334455667788, 0x99aabbccddeeff01, 0xf1e2d3c4b5a6978, 0x8796a5b4c3d2e1f0),
                 Words4(0x13579bdf02468ace, 0xfedcba9876543210, 0x123456789abcdef5, 0xc0ffee1234567891)) ==
            State(0x8d911ea53a5e461e, 0x71124a3c8a941dd1, 0x94386fef548e7b9, (0xf80fef9045b9d87b,
              0xd1b6d9fcfb9589e6), (0x852e10201cc93977, 0x97977cb518231d0))
  {
  }

  lemma KnownFinish64()
    ensures Finish64(State(0x1122334455667788, 0x99aabbccddeeff01, 0xf1e2d3c4b5a6978, (0x8796a5b4c3d2e1f0,
            0x13579bdf02468ace), (0xfedcba9876543210, 0x123456789abcdef5))) == 0x5f8a55d249510f08
  {
  }

  lemma KnownMurmurShort()
    ensures MurmurShort((0x1122334455667788, 0x99aabbccddeeff01), 0xf1e2d3c4b5a6978, 7, 0x8796a5b4c3d2e1f0) ==
            Murmur(0xa23154ef38badbbb, 0x99aabbccddeeff01, 0x5130a2a9115de8eb, 0xf361f7984a192265)
  {
  }

  lemma KnownMurmurEight()
    ensures MurmurShort((0x1122334455667788, 0x99aabbccddeeff01), 0xf1e2d3c4b5a6978, 8, 0x8796a5b4c3d2e1f0) ==
            Murmur(0xa23154ef38badbbb, 0x99aabbccddeeff01, 0x5130a2a9115de8eb, 0x29c7faa3fc8dee24)
  {
  }

  lemma KnownMurmurStart()
    ensures MurmurStart((0x1122334455667788, 0x99aabbccddeeff01), 0xf1e2d3c4b5a6978, 0x8796a5b4c3d2e1f0, 3) ==
            Murmur(0xbf0ac4922ccb0801, 0x99aabbccddeeff01, 0x1907f5c3f7ffea26, 0xade8914dd7649079)
  {
    Three();
  }

  lemma KnownMurmurTurn()
    ensures MurmurTurn(Murmur(0x1122334455667788, 0x99aabbccddeeff01, 0xf1e2d3c4b5a6978, 0x8796a5b4c3d2e1f0),
            0x13579bdf02468ace, 0xfedcba9876543210) == Murmur(0xff5dd1ed1b3e221e, 0x66f76a21c6d0dd1f,
            0x6b5c9d21fce89d8b, 0xecca38953f3a7c7b)
  {
  }

  lemma KnownMurmurEnd()
    ensures MurmurEnd(Murmur(0x1122334455667788, 0x99aabbccddeeff01, 0xf1e2d3c4b5a6978, 0x8796a5b4c3d2e1f0)) ==
            (0x235846dcd847720c, 0x477ccfe8395200e2)
  {
  }

  lemma KnownStart128()
    ensures Start128((0x1122334455667788, 0x99aabbccddeeff01), 0xf1e2d3c4b5a6978, 0x8796a5b4c3d2e1f0,
            0x13579bdf02468ace, 3) ==
            State(0x1122334455667788, 0x99aabbccddeeff01, 0x1db8234f3bcad759, (0xc4a8e2ec7c7f098c,
              0x8de62c9a6e11c918), (0xc90a16bdd9385481, 0xbb616a3592a0a8b9))
  {
    Three();
  }

  lemma KnownMiddle()
    ensures Middle(State(0x1122334455667788, 0x99aabbccddeeff01, 0xf1e2d3c4b5a6978, (0x8796a5b4c3d2e1f0,
            0x13579bdf02468ace), (0xfedcba9876543210, 0x123456789abcdef5))) ==
            State(0x1b50d3b0eca82c3e, 0x35e81af20394acda, 0x67456cc30eb55c56, (0x138035c2ebaf5b90,
              0x13579bdf02468ace), (0xf5c28f5c28f5c290, 0x123456789abcdef5))
  {
  }

  lemma KnownTailTurn()
    ensures TailTurn(State(0x1122334455667788, 0x99aabbccddeeff01, 0xf1e2d3c4b5a6978, (0x8796a5b4c3d2e1f0,
            0x13579bdf02468ace), (0xfedcba9876543210, 0x123456789abcdef5)),
                     Words4(0x13579bdf02468ace, 0xfedcba9876543210, 0x123456789abcdef5, 0xc0ffee1234567891)) ==
            State(0x8f835274b1664ebd, 0x4c5544c1199f23cb, 0x34aa1f93e85dd33b, (0x2536f609f8ea13c9,
              0x953f1ecc3dbe11b8), (0x1111111111111105, 0x99cafc2d5e8fc0e5))
  {
  }

  lemma KnownFinish128()
    ensures Finish128(State(0x1122334455667788, 0x99aabbccddeeff01, 0xf1e2d3c4b5a6978, (0x8796a5b4c3d2e1f0,
            0x13579bdf02468ace), (0xfedcba9876543210, 0x123456789abcdef5))) == (0xb176beb84a98f7d, 0x7a985242a16736aa)
  {
  }
}
