/**
  The digest of "abc" that sha1.c promises in its test, worked out word by word and round by round.
 */
module Sha1Answer {
  import opened Words
  import opened Sha1Block
  import opened HashBlocks
  import opened Sha1

  function Abc(): seq<byte> { [0x61, 0x62, 0x63] }

  /** The one padded block. */
  function AbcBlock(): (b: Block64) {
    Abc() + [0x80] + Zeros(59) + [0x18]
  }

  lemma AbcPadded()
    ensures Padded(Abc(), LengthBytes(24)) == AbcBlock()
  {
    assert LengthBytes(24) == Zeros(7) + [0x18];
    assert Marker(3) == [0x80] + Zeros(52);
  }

  lemma Next(t: nat)
    requires t >= 16
    ensures var b := AbcBlock(); W(b, t) == Rotl(Mix(W(b, t - 3), W(b, t - 8), W(b, t - 14), W(b, t - 16)), 1)
  {
    hide Mix, Rotl;
  }

  lemma Words16()
    ensures W(AbcBlock(), 0) == 0x61626380 && W(AbcBlock(), 1) == 0x00000000
         && W(AbcBlock(), 2) == 0x00000000 && W(AbcBlock(), 3) == 0x00000000
         && W(AbcBlock(), 4) == 0x00000000 && W(AbcBlock(), 5) == 0x00000000
         && W(AbcBlock(), 6) == 0x00000000 && W(AbcBlock(), 7) == 0x00000000
         && W(AbcBlock(), 8) == 0x00000000 && W(AbcBlock(), 9) == 0x00000000
         && W(AbcBlock(), 10) == 0x00000000 && W(AbcBlock(), 11) == 0x00000000
         && W(AbcBlock(), 12) == 0x00000000 && W(AbcBlock(), 13) == 0x00000000
         && W(AbcBlock(), 14) == 0x00000000 && W(AbcBlock(), 15) == 0x00000018
  {
  }

  lemma Words32()
    ensures W(AbcBlock(), 16) == 0xc2c4c700 && W(AbcBlock(), 17) == 0x00000000
         && W(AbcBlock(), 18) == 0x00000030 && W(AbcBlock(), 19) == 0x85898e01
         && W(AbcBlock(), 20) == 0x00000000 && W(AbcBlock(), 21) == 0x00000060
         && W(AbcBlock(), 22) == 0x0b131c03 && W(AbcBlock(), 23) == 0x00000030
         && W(AbcBlock(), 24) == 0x85898ec1 && W(AbcBlock(), 25) == 0x16263806
         && W(AbcBlock(), 26) == 0x00000000 && W(AbcBlock(), 27) == 0x00000180
         && W(AbcBlock(), 28) == 0x2c4c700c && W(AbcBlock(), 29) == 0x000000f0
         && W(AbcBlock(), 30) == 0x93afb507 && W(AbcBlock(), 31) == 0x5898e048
  {
    hide W;
    Words16();
    Next(16); Next(17); Next(18); Next(19); Next(20); Next(21); Next(22); Next(23);
    Next(24); Next(25); Next(26); Next(27); Next(28); Next(29); Next(30); Next(31);
  }

  lemma Words48()
    ensures W(AbcBlock(), 32) == 0x8e9a9202 && W(AbcBlock(), 33) == 0x00000600
         && W(AbcBlock(), 34) == 0xb131c0f0 && W(AbcBlock(), 35) == 0x16263bc6
         && W(AbcBlock(), 36) == 0x4ebed41e && W(AbcBlock(), 37) == 0x626380a1
         && W(AbcBlock(), 38) == 0x16263806 && W(AbcBlock(), 39) == 0x000018c0
         && W(AbcBlock(), 40) == 0xd2e138c4 && W(AbcBlock(), 41) == 0x00000f00
         && W(AbcBlock(), 42) == 0x3afb5079 && W(AbcBlock(), 43) == 0x898e04e5
         && W(AbcBlock(), 44) == 0xe2ba3c2b && W(AbcBlock(), 45) == 0x000060c0
         && W(AbcBlock(), 46) == 0x053a37cd && W(AbcBlock(), 47) == 0x74458547
  {
    hide W;
    Words32();
    Next(32); Next(33); Next(34); Next(35); Next(36); Next(37); Next(38); Next(39);
    Next(40); Next(41); Next(42); Next(43); Next(44); Next(45); Next(46); Next(47);
  }

  lemma Words64()
    ensures W(AbcBlock(), 48) == 0xda9415ed && W(AbcBlock(), 49) == 0x26380a16
         && W(AbcBlock(), 50) == 0x626383a1 && W(AbcBlock(), 51) == 0x4ebf54de
         && W(AbcBlock(), 52) == 0x3835b44b && W(AbcBlock(), 53) == 0x0000f600
         && W(AbcBlock(), 54) == 0x1e84c7a3 && W(AbcBlock(), 55) == 0x98e04d98
         && W(AbcBlock(), 56) == 0x651d16a0 && W(AbcBlock(), 57) == 0x62658ca1
         && W(AbcBlock(), 58) == 0x458544d6 && W(AbcBlock(), 59) == 0x44584cb7
         && W(AbcBlock(), 60) == 0x7ba06619 && W(AbcBlock(), 61) == 0x6380aea2
         && W(AbcBlock(), 62) == 0x0ae55269 && W(AbcBlock(), 63) == 0x627b49a1
  {
    hide W;
    Words48();
    Next(48); Next(49); Next(50); Next(51); Next(52); Next(53); Next(54); Next(55);
    Next(56); Next(57); Next(58); Next(59); Next(60); Next(61); Next(62); Next(63);
  }

  lemma Words80()
    ensures W(AbcBlock(), 64) == 0x7cd45c9d && W(AbcBlock(), 65) == 0x000f0000
         && W(AbcBlock(), 66) == 0xfb50753a && W(AbcBlock(), 67) == 0xec6765e8
         && W(AbcBlock(), 68) == 0xba3c2be2 && W(AbcBlock(), 69) == 0x0060c000
         && W(AbcBlock(), 70) == 0x3a37cd05 && W(AbcBlock(), 71) == 0x458546f4
         && W(AbcBlock(), 72) == 0xb8599dd6 && W(AbcBlock(), 73) == 0x380a1a26
         && W(AbcBlock(), 74) == 0x01e02203 && W(AbcBlock(), 75) == 0xe7cc3456
         && W(AbcBlock(), 76) == 0xe6e60b69 && W(AbcBlock(), 77) == 0x00f60a00
         && W(AbcBlock(), 78) == 0x5795ef4f && W(AbcBlock(), 79) == 0x822e0879
  {
    hide W;
    Words64();
    Next(64); Next(65); Next(66); Next(67); Next(68); Next(69); Next(70); Next(71);
    Next(72); Next(73); Next(74); Next(75); Next(76); Next(77); Next(78); Next(79);
  }

  lemma Rounds16()
    ensures Rounds(AbcBlock(), INIT, 16)
         == Chain(0x20bdd62f, 0x196bee77, 0x644a3da5, 0x1181ed99, 0x18c623f9)
  {
    hide W;
    Words16();
    assert Rounds(AbcBlock(), INIT, 1).a == 0x0116fc33; assert Rounds(AbcBlock(), INIT, 2).a == 0x8990536d;
    assert Rounds(AbcBlock(), INIT, 3).a == 0xa1390f08; assert Rounds(AbcBlock(), INIT, 4).a == 0xcdd8e11b;
    assert Rounds(AbcBlock(), INIT, 5).a == 0xcfd499de; assert Rounds(AbcBlock(), INIT, 6).a == 0x3fc7ca40;
    assert Rounds(AbcBlock(), INIT, 7).a == 0x993e30c1; assert Rounds(AbcBlock(), INIT, 8).a == 0x9e8c07d4;
    assert Rounds(AbcBlock(), INIT, 9).a == 0x4b6ae328; assert Rounds(AbcBlock(), INIT, 10).a == 0x8351f929;
    assert Rounds(AbcBlock(), INIT, 11).a == 0xfbda9e89; assert Rounds(AbcBlock(), INIT, 12).a == 0x63188fe4;
    assert Rounds(AbcBlock(), INIT, 13).a == 0x4607b664; assert Rounds(AbcBlock(), INIT, 14).a == 0x9128f695;
    assert Rounds(AbcBlock(), INIT, 15).a == 0x196bee77; assert Rounds(AbcBlock(), INIT, 16).a == 0x20bdd62f;
  }

  lemma Rounds32()
    ensures Rounds(AbcBlock(), INIT, 32)
         == Chain(0x3b845d33, 0x1267b407, 0x717eebd7, 0xa0dc2d4b, 0xd2aa1365)
  {
    hide W;
    Words32();
    Rounds16();
    assert Rounds(AbcBlock(), INIT, 17).a == 0x4e925823; assert Rounds(AbcBlock(), INIT, 18).a == 0x82aa6728;
    assert Rounds(AbcBlock(), INIT, 19).a == 0xdc64901d; assert Rounds(AbcBlock(), INIT, 20).a == 0xfd9e1d7d;
    assert Rounds(AbcBlock(), INIT, 21).a == 0x1a37b0ca; assert Rounds(AbcBlock(), INIT, 22).a == 0x33a23bfc;
    assert Rounds(AbcBlock(), INIT, 23).a == 0x21283486; assert Rounds(AbcBlock(), INIT, 24).a == 0xd541f12d;
    assert Rounds(AbcBlock(), INIT, 25).a == 0xc7567dc6; assert Rounds(AbcBlock(), INIT, 26).a == 0x48413ba4;
    assert Rounds(AbcBlock(), INIT, 27).a == 0xbe35fbd5; assert Rounds(AbcBlock(), INIT, 28).a == 0x4aa84d97;
    assert Rounds(AbcBlock(), INIT, 29).a == 0x8370b52e; assert Rounds(AbcBlock(), INIT, 30).a == 0xc5fbaf5d;
    assert Rounds(AbcBlock(), INIT, 31).a == 0x1267b407; assert Rounds(AbcBlock(), INIT, 32).a == 0x3b845d33;
  }

  lemma Rounds48()
    ensures Rounds(AbcBlock(), INIT, 48)
         == Chain(0xbead02ca, 0xa01b846c, 0x8714787c, 0x503ca382, 0xfb86c6ab)
  {
    hide W;
    Words48();
    Rounds32();
    assert Rounds(AbcBlock(), INIT, 33).a == 0x046faa0a; assert Rounds(AbcBlock(), INIT, 34).a == 0x2c0ebc11;
    assert Rounds(AbcBlock(), INIT, 35).a == 0x21796ad4; assert Rounds(AbcBlock(), INIT, 36).a == 0xdcbbb0cb;
    assert Rounds(AbcBlock(), INIT, 37).a == 0x0f511fd8; assert Rounds(AbcBlock(), INIT, 38).a == 0xdc63973f;
    assert Rounds(AbcBlock(), INIT, 39).a == 0x4c986405; assert Rounds(AbcBlock(), INIT, 40).a == 0x32de1cba;
    assert Rounds(AbcBlock(), INIT, 41).a == 0xfc87dedf; assert Rounds(AbcBlock(), INIT, 42).a == 0x970a0d5c;
    assert Rounds(AbcBlock(), INIT, 43).a == 0x7f193dc5; assert Rounds(AbcBlock(), INIT, 44).a == 0xee1b1aaf;
    assert Rounds(AbcBlock(), INIT, 45).a == 0x40f28e09; assert Rounds(AbcBlock(), INIT, 46).a == 0x1c51e1f2;
    assert Rounds(AbcBlock(), INIT, 47).a == 0xa01b846c; assert Rounds(AbcBlock(), INIT, 48).a == 0xbead02ca;
  }

  lemma Rounds64()
    ensures Rounds(AbcBlock(), INIT, 64)
         == Chain(0x6b61c9e1, 0xb66c020b, 0x9523272c, 0xf5d5b051, 0x8fd4b796)
  {
    hide W;
    Words64();
    Rounds48();
    assert Rounds(AbcBlock(), INIT, 49).a == 0xbaf39337; assert Rounds(AbcBlock(), INIT, 50).a == 0x120731c5;
    assert Rounds(AbcBlock(), INIT, 51).a == 0x641db2ce; assert Rounds(AbcBlock(), INIT, 52).a == 0x3847ad66;
    assert Rounds(AbcBlock(), INIT, 53).a == 0xe490436d; assert Rounds(AbcBlock(), INIT, 54).a == 0x27e9f1d8;
    assert Rounds(AbcBlock(), INIT, 55).a == 0x7b71f76d; assert Rounds(AbcBlock(), INIT, 56).a == 0x5e6456af;
    assert Rounds(AbcBlock(), INIT, 57).a == 0xc846093f; assert Rounds(AbcBlock(), INIT, 58).a == 0xd262ff50;
    assert Rounds(AbcBlock(), INIT, 59).a == 0x09d785fd; assert Rounds(AbcBlock(), INIT, 60).a == 0x3f52de5a;
    assert Rounds(AbcBlock(), INIT, 61).a == 0xd756c147; assert Rounds(AbcBlock(), INIT, 62).a == 0x548c9cb2;
    assert Rounds(AbcBlock(), INIT, 63).a == 0xb66c020b; assert Rounds(AbcBlock(), INIT, 64).a == 0x6b61c9e1;
  }

  lemma Rounds80()
    ensures Rounds(AbcBlock(), INIT, 80)
         == Chain(0x42541b35, 0x5738d5e1, 0x21834873, 0x681e6df6, 0xd8fdf6ad)
  {
    hide W;
    Words80();
    Rounds64();
    assert Rounds(AbcBlock(), INIT, 65).a == 0x19dfa7ac; assert Rounds(AbcBlock(), INIT, 66).a == 0x101655f9;
    assert Rounds(AbcBlock(), INIT, 67).a == 0x0c3df2b4; assert Rounds(AbcBlock(), INIT, 68).a == 0x78dd4d2b;
    assert Rounds(AbcBlock(), INIT, 69).a == 0x497093c0; assert Rounds(AbcBlock(), INIT, 70).a == 0x3f2588c2;
    assert Rounds(AbcBlock(), INIT, 71).a == 0xc199f8c7; assert Rounds(AbcBlock(), INIT, 72).a == 0x39859de7;
    assert Rounds(AbcBlock(), INIT, 73).a == 0xedb42de4; assert Rounds(AbcBlock(), INIT, 74).a == 0x11793f6f;
    assert Rounds(AbcBlock(), INIT, 75).a == 0x5ee76897; assert Rounds(AbcBlock(), INIT, 76).a == 0x63f7dab7;
    assert Rounds(AbcBlock(), INIT, 77).a == 0xa079b7d9; assert Rounds(AbcBlock(), INIT, 78).a == 0x860d21cc;
    assert Rounds(AbcBlock(), INIT, 79).a == 0x5738d5e1; assert Rounds(AbcBlock(), INIT, 80).a == 0x42541b35;
  }

  /** The first of the three examples of section 7.3 of RFC 3174. */
  lemma DigestOfAbc()
    ensures Digest(Abc()) == [0xa9, 0x99, 0x3e, 0x36, 0x47, 0x06, 0x81, 0x6a, 0xba, 0x3e,
                              0x25, 0x71, 0x78, 0x50, 0xc2, 0x6c, 0x9c, 0xd0, 0xd8, 0x9d]
  {
    hide W, Rounds, Iterate;
    AbcPadded();
    IterateOne(CompressFn(), INIT, AbcBlock());
    Rounds80();
    assert Compress(INIT, AbcBlock()) == Chain(0xa9993e36, 0x4706816a, 0xba3e2571, 0x7850c26c, 0x9cd0d89d);
  }
}
