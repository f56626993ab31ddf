// The example of FIPS 180-4 for SHA-1: the digest of "abc", round by round.
module Sha1Vectors {
  import opened ByteOrder
  import opened Sha1

  const ABC: Message := [0x61, 0x62, 0x63]

  const BLOCK: MessageBlock := [0x61, 0x62, 0x63, 0x80] + Zeros(52) + Store64(Big, 24)

  lemma OneBlock()
    ensures BlockCount(ABC) == 1 && BlockOf(ABC, 0) == BLOCK
  {
    assert ZeroCount(3) == 52;
    assert BitLength(ABC) == 24;
    hide Store64;
    assert Padded(ABC) == BLOCK;
  }

  // ---- The schedule.

  lemma LengthBytes()
    ensures Store64(Big, 24) == [0, 0, 0, 0, 0, 0, 0, 24]
  {
  }

  function BlockWord(t: nat): Word4 {
    if t == 0 then [0x61, 0x62, 0x63, 0x80] else if t == 15 then [0, 0, 0, 24] else [0, 0, 0, 0]
  }

  lemma WordInBlock(t: nat)
    requires t < 16
    ensures BLOCK[4 * t..4 * t + 4] == BlockWord(t)
  {
    hide Store64;
    LengthBytes();
    forall k | 0 <= k < 4 ensures BLOCK[4 * t + k] == BlockWord(t)[k] {
    }
  }

  function W(t: nat): bv32 {
    ScheduleWord(BLOCK, t)
  }

  lemma Words0()
    ensures W(0) == 0x61626380 && W(1) == 0x00000000 && W(2) == 0x00000000 && W(3) == 0x00000000
    ensures W(4) == 0x00000000 && W(5) == 0x00000000 && W(6) == 0x00000000 && W(7) == 0x00000000
    ensures W(8) == 0x00000000 && W(9) == 0x00000000 && W(10) == 0x00000000 && W(11) == 0x00000000
    ensures W(12) == 0x00000000 && W(13) == 0x00000000 && W(14) == 0x00000000 && W(15) == 0x00000018
  {
    forall t | 0 <= t < 16 ensures W(t) == Load32(Big, BlockWord(t)) {
      ScheduleWordStart(BLOCK, t);
      WordInBlock(t);
    }
    hide ScheduleWord;
    hide W;
  }

  lemma Words16()
    ensures W(16) == 0xc2c4c700 && W(17) == 0x00000000 && W(18) == 0x00000030 && W(19) == 0x85898e01
    ensures W(20) == 0x00000000 && W(21) == 0x00000060 && W(22) == 0x0b131c03 && W(23) == 0x00000030
    ensures W(24) == 0x85898ec1 && W(25) == 0x16263806 && W(26) == 0x00000000 && W(27) == 0x00000180
    ensures W(28) == 0x2c4c700c && W(29) == 0x000000f0 && W(30) == 0x93afb507 && W(31) == 0x5898e048
  {
    Words0();
    hide ScheduleWord;
    ScheduleWordStep(BLOCK, 16);
    ScheduleWordStep(BLOCK, 17);
    ScheduleWordStep(BLOCK, 18);
    ScheduleWordStep(BLOCK, 19);
    ScheduleWordStep(BLOCK, 20);
    ScheduleWordStep(BLOCK, 21);
    ScheduleWordStep(BLOCK, 22);
    ScheduleWordStep(BLOCK, 23);
    ScheduleWordStep(BLOCK, 24);
    ScheduleWordStep(BLOCK, 25);
    ScheduleWordStep(BLOCK, 26);
    ScheduleWordStep(BLOCK, 27);
    ScheduleWordStep(BLOCK, 28);
    ScheduleWordStep(BLOCK, 29);
    ScheduleWordStep(BLOCK, 30);
    ScheduleWordStep(BLOCK, 31);
  }

  lemma Words32()
    ensures W(32) == 0x8e9a9202 && W(33) == 0x00000600 && W(34) == 0xb131c0f0 && W(35) == 0x16263bc6
    ensures W(36) == 0x4ebed41e && W(37) == 0x626380a1 && W(38) == 0x16263806 && W(39) == 0x000018c0
    ensures W(40) == 0xd2e138c4 && W(41) == 0x00000f00 && W(42) == 0x3afb5079 && W(43) == 0x898e04e5
    ensures W(44) == 0xe2ba3c2b && W(45) == 0x000060c0 && W(46) == 0x053a37cd && W(47) == 0x74458547
  {
    Words16();
    hide ScheduleWord;
    ScheduleWordStep(BLOCK, 32);
    ScheduleWordStep(BLOCK, 33);
    ScheduleWordStep(BLOCK, 34);
    ScheduleWordStep(BLOCK, 35);
    ScheduleWordStep(BLOCK, 36);
    ScheduleWordStep(BLOCK, 37);
    ScheduleWordStep(BLOCK, 38);
    ScheduleWordStep(BLOCK, 39);
    ScheduleWordStep(BLOCK, 40);
    ScheduleWordStep(BLOCK, 41);
    ScheduleWordStep(BLOCK, 42);
    ScheduleWordStep(BLOCK, 43);
    ScheduleWordStep(BLOCK, 44);
    ScheduleWordStep(BLOCK, 45);
    ScheduleWordStep(BLOCK, 46);
    ScheduleWordStep(BLOCK, 47);
  }

  lemma Words48()
    ensures W(48) == 0xda9415ed && W(49) == 0x26380a16 && W(50) == 0x626383a1 && W(51) == 0x4ebf54de
    ensures W(52) == 0x3835b44b && W(53) == 0x0000f600 && W(54) == 0x1e84c7a3 && W(55) == 0x98e04d98
    ensures W(56) == 0x651d16a0 && W(57) == 0x62658ca1 && W(58) == 0x458544d6 && W(59) == 0x44584cb7
    ensures W(60) == 0x7ba06619 && W(61) == 0x6380aea2 && W(62) == 0x0ae55269 && W(63) == 0x627b49a1
  {
    Words32();
    hide ScheduleWord;
    ScheduleWordStep(BLOCK, 48);
    ScheduleWordStep(BLOCK, 49);
    ScheduleWordStep(BLOCK, 50);
    ScheduleWordStep(BLOCK, 51);
    ScheduleWordStep(BLOCK, 52);
    ScheduleWordStep(BLOCK, 53);
    ScheduleWordStep(BLOCK, 54);
    ScheduleWordStep(BLOCK, 55);
    ScheduleWordStep(BLOCK, 56);
    ScheduleWordStep(BLOCK, 57);
    ScheduleWordStep(BLOCK, 58);
    ScheduleWordStep(BLOCK, 59);
    ScheduleWordStep(BLOCK, 60);
    ScheduleWordStep(BLOCK, 61);
    ScheduleWordStep(BLOCK, 62);
    ScheduleWordStep(BLOCK, 63);
  }

  lemma Words64()
    ensures W(64) == 0x7cd45c9d && W(65) == 0x000f0000 && W(66) == 0xfb50753a && W(67) == 0xec6765e8
    ensures W(68) == 0xba3c2be2 && W(69) == 0x0060c000 && W(70) == 0x3a37cd05 && W(71) == 0x458546f4
    ensures W(72) == 0xb8599dd6 && W(73) == 0x380a1a26 && W(74) == 0x01e02203 && W(75) == 0xe7cc3456
    ensures W(76) == 0xe6e60b69 && W(77) == 0x00f60a00 && W(78) == 0x5795ef4f && W(79) == 0x822e0879
  {
    Words48();
    hide ScheduleWord;
    ScheduleWordStep(BLOCK, 64);
    ScheduleWordStep(BLOCK, 65);
    ScheduleWordStep(BLOCK, 66);
    ScheduleWordStep(BLOCK, 67);
    ScheduleWordStep(BLOCK, 68);
    ScheduleWordStep(BLOCK, 69);
    ScheduleWordStep(BLOCK, 70);
    ScheduleWordStep(BLOCK, 71);
    ScheduleWordStep(BLOCK, 72);
    ScheduleWordStep(BLOCK, 73);
    ScheduleWordStep(BLOCK, 74);
    ScheduleWordStep(BLOCK, 75);
    ScheduleWordStep(BLOCK, 76);
    ScheduleWordStep(BLOCK, 77);
    ScheduleWordStep(BLOCK, 78);
    ScheduleWordStep(BLOCK, 79);
  }

  // ---- The rounds.

  function At(t: nat): Hash {
    Worked(INITIAL_HASH, BLOCK, t)
  }

  lemma Next(t: nat, v: Hash, w: bv32)
    requires At(t) == v && W(t) == w
    ensures At(t + 1) == Hash(RoundSum(t, v, w), v.a, Rotl30(v.b), v.c, v.d)
  {
    hide ScheduleWord;
    hide RoundSum;
    hide Rotl30;
  }

  lemma At0()
    ensures At(0) == INITIAL_HASH
  {
  }

  lemma At10()
    ensures At(10) == Hash(0x8351f929, 0x4b6ae328, 0x27a301f5, 0x664f8c30, 0x0ff1f290)
  {
    At0();
    Words0();
    Words16();
    Words32();
    Words48();
    Words64();
    hide Worked;
    hide ScheduleWord;
    hide At;
    hide W;
    Next(0, Hash(0x67452301, 0xefcdab89, 0x98badcfe, 0x10325476, 0xc3d2e1f0), 0x61626380);
    Next(1, Hash(0x0116fc33, 0x67452301, 0x7bf36ae2, 0x98badcfe, 0x10325476), 0x00000000);
    Next(2, Hash(0x8990536d, 0x0116fc33, 0x59d148c0, 0x7bf36ae2, 0x98badcfe), 0x00000000);
    Next(3, Hash(0xa1390f08, 0x8990536d, 0xc045bf0c, 0x59d148c0, 0x7bf36ae2), 0x00000000);
    Next(4, Hash(0xcdd8e11b, 0xa1390f08, 0x626414db, 0xc045bf0c, 0x59d148c0), 0x00000000);
    Next(5, Hash(0xcfd499de, 0xcdd8e11b, 0x284e43c2, 0x626414db, 0xc045bf0c), 0x00000000);
    Next(6, Hash(0x3fc7ca40, 0xcfd499de, 0xf3763846, 0x284e43c2, 0x626414db), 0x00000000);
    Next(7, Hash(0x993e30c1, 0x3fc7ca40, 0xb3f52677, 0xf3763846, 0x284e43c2), 0x00000000);
    Next(8, Hash(0x9e8c07d4, 0x993e30c1, 0x0ff1f290, 0xb3f52677, 0xf3763846), 0x00000000);
    Next(9, Hash(0x4b6ae328, 0x9e8c07d4, 0x664f8c30, 0x0ff1f290, 0xb3f52677), 0x00000000);
  }

  lemma At20()
    ensures At(20) == Hash(0xfd9e1d7d, 0xdc64901d, 0x20aa99ca, 0xd3a49608, 0xc82f758b)
  {
    At10();
    Words0();
    Words16();
    Words32();
    Words48();
    Words64();
    hide Worked;
    hide ScheduleWord;
    hide At;
    hide W;
    Next(10, Hash(0x8351f929, 0x4b6ae328, 0x27a301f5, 0x664f8c30, 0x0ff1f290), 0x00000000);
    Next(11, Hash(0xfbda9e89, 0x8351f929, 0x12dab8ca, 0x27a301f5, 0x664f8c30), 0x00000000);
    Next(12, Hash(0x63188fe4, 0xfbda9e89, 0x60d47e4a, 0x12dab8ca, 0x27a301f5), 0x00000000);
    Next(13, Hash(0x4607b664, 0x63188fe4, 0x7ef6a7a2, 0x60d47e4a, 0x12dab8ca), 0x00000000);
    Next(14, Hash(0x9128f695, 0x4607b664, 0x18c623f9, 0x7ef6a7a2, 0x60d47e4a), 0x00000000);
    Next(15, Hash(0x196bee77, 0x9128f695, 0x1181ed99, 0x18c623f9, 0x7ef6a7a2), 0x00000018);
    Next(16, Hash(0x20bdd62f, 0x196bee77, 0x644a3da5, 0x1181ed99, 0x18c623f9), 0xc2c4c700);
    Next(17, Hash(0x4e925823, 0x20bdd62f, 0xc65afb9d, 0x644a3da5, 0x1181ed99), 0x00000000);
    Next(18, Hash(0x82aa6728, 0x4e925823, 0xc82f758b, 0xc65afb9d, 0x644a3da5), 0x00000030);
    Next(19, Hash(0xdc64901d, 0x82aa6728, 0xd3a49608, 0xc82f758b, 0xc65afb9d), 0x85898e01);
  }

  lemma At30()
    ensures At(30) == Hash(0xc5fbaf5d, 0x8370b52e, 0xd2aa1365, 0x6f8d7ef5, 0x12104ee9)
  {
    At20();
    Words16();
    Words32();
    Words48();
    Words64();
    hide Worked;
    hide ScheduleWord;
    hide At;
    hide W;
    Next(20, Hash(0xfd9e1d7d, 0xdc64901d, 0x20aa99ca, 0xd3a49608, 0xc82f758b), 0x00000000);
    Next(21, Hash(0x1a37b0ca, 0xfd9e1d7d, 0x77192407, 0x20aa99ca, 0xd3a49608), 0x00000060);
    Next(22, Hash(0x33a23bfc, 0x1a37b0ca, 0x7f67875f, 0x77192407, 0x20aa99ca), 0x0b131c03);
    Next(23, Hash(0x21283486, 0x33a23bfc, 0x868dec32, 0x7f67875f, 0x77192407), 0x00000030);
    Next(24, Hash(0xd541f12d, 0x21283486, 0x0ce88eff, 0x868dec32, 0x7f67875f), 0x85898ec1);
    Next(25, Hash(0xc7567dc6, 0xd541f12d, 0x884a0d21, 0x0ce88eff, 0x868dec32), 0x16263806);
    Next(26, Hash(0x48413ba4, 0xc7567dc6, 0x75507c4b, 0x884a0d21, 0x0ce88eff), 0x00000000);
    Next(27, Hash(0xbe35fbd5, 0x48413ba4, 0xb1d59f71, 0x75507c4b, 0x884a0d21), 0x00000180);
    Next(28, Hash(0x4aa84d97, 0xbe35fbd5, 0x12104ee9, 0xb1d59f71, 0x75507c4b), 0x2c4c700c);
    Next(29, Hash(0x8370b52e, 0x4aa84d97, 0x6f8d7ef5, 0x12104ee9, 0xb1d59f71), 0x000000f0);
  }

  lemma At40()
    ensures At(40) == Hash(0x32de1cba, 0x4c986405, 0xf718e5cf, 0x03d447f6, 0xf72eec32)
  {
    At30();
    Words16();
    Words32();
    Words48();
    Words64();
    hide Worked;
    hide ScheduleWord;
    hide At;
    hide W;
    Next(30, Hash(0xc5fbaf5d, 0x8370b52e, 0xd2aa1365, 0x6f8d7ef5, 0x12104ee9), 0x93afb507);
    Next(31, Hash(0x1267b407, 0xc5fbaf5d, 0xa0dc2d4b, 0xd2aa1365, 0x6f8d7ef5), 0x5898e048);
    Next(32, Hash(0x3b845d33, 0x1267b407, 0x717eebd7, 0xa0dc2d4b, 0xd2aa1365), 0x8e9a9202);
    Next(33, Hash(0x046faa0a, 0x3b845d33, 0xc499ed01, 0x717eebd7, 0xa0dc2d4b), 0x00000600);
    Next(34, Hash(0x2c0ebc11, 0x046faa0a, 0xcee1174c, 0xc499ed01, 0x717eebd7), 0xb131c0f0);
    Next(35, Hash(0x21796ad4, 0x2c0ebc11, 0x811bea82, 0xcee1174c, 0xc499ed01), 0x16263bc6);
    Next(36, Hash(0xdcbbb0cb, 0x21796ad4, 0x4b03af04, 0x811bea82, 0xcee1174c), 0x4ebed41e);
    Next(37, Hash(0x0f511fd8, 0xdcbbb0cb, 0x085e5ab5, 0x4b03af04, 0x811bea82), 0x626380a1);
    Next(38, Hash(0xdc63973f, 0x0f511fd8, 0xf72eec32, 0x085e5ab5, 0x4b03af04), 0x16263806);
    Next(39, Hash(0x4c986405, 0xdc63973f, 0x03d447f6, 0xf72eec32, 0x085e5ab5), 0x000018c0);
  }

  lemma At50()
    ensures At(50) == Hash(0x120731c5, 0xbaf39337, 0xafab40b2, 0x2806e11b, 0x8714787c)
  {
    At40();
    Words32();
    Words48();
    Words64();
    hide Worked;
    hide ScheduleWord;
    hide At;
    hide W;
    Next(40, Hash(0x32de1cba, 0x4c986405, 0xf718e5cf, 0x03d447f6, 0xf72eec32), 0xd2e138c4);
    Next(41, Hash(0xfc87dedf, 0x32de1cba, 0x53261901, 0xf718e5cf, 0x03d447f6), 0x00000f00);
    Next(42, Hash(0x970a0d5c, 0xfc87dedf, 0x8cb7872e, 0x53261901, 0xf718e5cf), 0x3afb5079);
    Next(43, Hash(0x7f193dc5, 0x970a0d5c, 0xff21f7b7, 0x8cb7872e, 0x53261901), 0x898e04e5);
    Next(44, Hash(0xee1b1aaf, 0x7f193dc5, 0x25c28357, 0xff21f7b7, 0x8cb7872e), 0xe2ba3c2b);
    Next(45, Hash(0x40f28e09, 0xee1b1aaf, 0x5fc64f71, 0x25c28357, 0xff21f7b7), 0x000060c0);
    Next(46, Hash(0x1c51e1f2, 0x40f28e09, 0xfb86c6ab, 0x5fc64f71, 0x25c28357), 0x053a37cd);
    Next(47, Hash(0xa01b846c, 0x1c51e1f2, 0x503ca382, 0xfb86c6ab, 0x5fc64f71), 0x74458547);
    Next(48, Hash(0xbead02ca, 0xa01b846c, 0x8714787c, 0x503ca382, 0xfb86c6ab), 0xda9415ed);
    Next(49, Hash(0xbaf39337, 0xbead02ca, 0x2806e11b, 0x8714787c, 0x503ca382), 0x26380a16);
  }

  lemma At60()
    ensures At(60) == Hash(0x3f52de5a, 0x09d785fd, 0x3498bfd4, 0xf211824f, 0xd79915ab)
  {
    At50();
    Words48();
    Words64();
    hide Worked;
    hide ScheduleWord;
    hide At;
    hide W;
    Next(50, Hash(0x120731c5, 0xbaf39337, 0xafab40b2, 0x2806e11b, 0x8714787c), 0x626383a1);
    Next(51, Hash(0x641db2ce, 0x120731c5, 0xeebce4cd, 0xafab40b2, 0x2806e11b), 0x4ebf54de);
    Next(52, Hash(0x3847ad66, 0x641db2ce, 0x4481cc71, 0xeebce4cd, 0xafab40b2), 0x3835b44b);
    Next(53, Hash(0xe490436d, 0x3847ad66, 0x99076cb3, 0x4481cc71, 0xeebce4cd), 0x0000f600);
    Next(54, Hash(0x27e9f1d8, 0xe490436d, 0x8e11eb59, 0x99076cb3, 0x4481cc71), 0x1e84c7a3);
    Next(55, Hash(0x7b71f76d, 0x27e9f1d8, 0x792410db, 0x8e11eb59, 0x99076cb3), 0x98e04d98);
    Next(56, Hash(0x5e6456af, 0x7b71f76d, 0x09fa7c76, 0x792410db, 0x8e11eb59), 0x651d16a0);
    Next(57, Hash(0xc846093f, 0x5e6456af, 0x5edc7ddb, 0x09fa7c76, 0x792410db), 0x62658ca1);
    Next(58, Hash(0xd262ff50, 0xc846093f, 0xd79915ab, 0x5edc7ddb, 0x09fa7c76), 0x458544d6);
    Next(59, Hash(0x09d785fd, 0xd262ff50, 0xf211824f, 0xd79915ab, 0x5edc7ddb), 0x44584cb7);
  }

  lemma At70()
    ensures At(70) == Hash(0x3f2588c2, 0x497093c0, 0xde37534a, 0x030f7cad, 0x4405957e)
  {
    At60();
    Words48();
    Words64();
    hide Worked;
    hide ScheduleWord;
    hide At;
    hide W;
    Next(60, Hash(0x3f52de5a, 0x09d785fd, 0x3498bfd4, 0xf211824f, 0xd79915ab), 0x7ba06619);
    Next(61, Hash(0xd756c147, 0x3f52de5a, 0x4275e17f, 0x3498bfd4, 0xf211824f), 0x6380aea2);
    Next(62, Hash(0x548c9cb2, 0xd756c147, 0x8fd4b796, 0x4275e17f, 0x3498bfd4), 0x0ae55269);
    Next(63, Hash(0xb66c020b, 0x548c9cb2, 0xf5d5b051, 0x8fd4b796, 0x4275e17f), 0x627b49a1);
    Next(64, Hash(0x6b61c9e1, 0xb66c020b, 0x9523272c, 0xf5d5b051, 0x8fd4b796), 0x7cd45c9d);
    Next(65, Hash(0x19dfa7ac, 0x6b61c9e1, 0xed9b0082, 0x9523272c, 0xf5d5b051), 0x000f0000);
    Next(66, Hash(0x101655f9, 0x19dfa7ac, 0x5ad87278, 0xed9b0082, 0x9523272c), 0xfb50753a);
    Next(67, Hash(0x0c3df2b4, 0x101655f9, 0x0677e9eb, 0x5ad87278, 0xed9b0082), 0xec6765e8);
    Next(68, Hash(0x78dd4d2b, 0x0c3df2b4, 0x4405957e, 0x0677e9eb, 0x5ad87278), 0xba3c2be2);
    Next(69, Hash(0x497093c0, 0x78dd4d2b, 0x030f7cad, 0x4405957e, 0x0677e9eb), 0x0060c000);
  }

  lemma At80()
    ensures At(80) == Hash(0x42541b35, 0x5738d5e1, 0x21834873, 0x681e6df6, 0xd8fdf6ad)
  {
    At70();
    Words64();
    hide Worked;
    hide ScheduleWord;
    hide At;
    hide W;
    Next(70, Hash(0x3f2588c2, 0x497093c0, 0xde37534a, 0x030f7cad, 0x4405957e), 0x3a37cd05);
    Next(71, Hash(0xc199f8c7, 0x3f2588c2, 0x125c24f0, 0xde37534a, 0x030f7cad), 0x458546f4);
    Next(72, Hash(0x39859de7, 0xc199f8c7, 0x8fc96230, 0x125c24f0, 0xde37534a), 0xb8599dd6);
    Next(73, Hash(0xedb42de4, 0x39859de7, 0xf0667e31, 0x8fc96230, 0x125c24f0), 0x380a1a26);
    Next(74, Hash(0x11793f6f, 0xedb42de4, 0xce616779, 0xf0667e31, 0x8fc96230), 0x01e02203);
    Next(75, Hash(0x5ee76897, 0x11793f6f, 0x3b6d0b79, 0xce616779, 0xf0667e31), 0xe7cc3456);
    Next(76, Hash(0x63f7dab7, 0x5ee76897, 0xc45e4fdb, 0x3b6d0b79, 0xce616779), 0xe6e60b69);
    Next(77, Hash(0xa079b7d9, 0x63f7dab7, 0xd7b9da25, 0xc45e4fdb, 0x3b6d0b79), 0x00f60a00);
    Next(78, Hash(0x860d21cc, 0xa079b7d9, 0xd8fdf6ad, 0xd7b9da25, 0xc45e4fdb), 0x5795ef4f);
    Next(79, Hash(0x5738d5e1, 0x860d21cc, 0x681e6df6, 0xd8fdf6ad, 0xd7b9da25), 0x822e0879);
  }

  lemma DigestOfAbc()
    ensures Digest(ABC) == [0xa9, 0x99, 0x3e, 0x36, 0x47, 0x06, 0x81, 0x6a, 0xba, 0x3e,
                            0x25, 0x71, 0x78, 0x50, 0xc2, 0x6c, 0x9c, 0xd0, 0xd8, 0x9d]
  {
    OneBlock();
    At80();
    hide Worked;
    hide Padded;
    hide BlockCount;
    hide BlockOf;
    assert HashOf(ABC, 0) == INITIAL_HASH;
    assert HashOf(ABC, 1) == Compressed(INITIAL_HASH, BLOCK);
    assert Compressed(INITIAL_HASH, BLOCK) == Hash(0xa9993e36, 0x4706816a, 0xba3e2571, 0x7850c26c, 0x9cd0d89d);
    hide Compressed;
  }
}
