/** The example computation of the standard for the message "abc", as a check of the definitions in `Sha1Spec`. */
module Sha1Example {
  import opened Sha1Spec
  import Radix

  const ABC: seq<Byte> := [0x61, 0x62, 0x63]

  ghost predicate IsAbc(m: Block) {
    m[0] == 0x61 && m[1] == 0x62 && m[2] == 0x63 && m[3] == 0x80 && m[63] == 24 && forall i | 4 <= i < 63 :: m[i] == 0
  }

  lemma FirstWords(m: Block)
    requires IsAbc(m)
    ensures W(m, 0) == 0x61626380 && W(m, 15) == 24 && forall t | 1 <= t < 15 :: W(m, t) == 0
  {
  }

  lemma NextWord(m: Block, t: nat)
    requires t >= 16
    ensures W(m, t) == Rotl(1, W(m, t - 3) ^ W(m, t - 8) ^ W(m, t - 14) ^ W(m, t - 16))
  {
  }

  lemma NextRound(m: Block, v: State, t: nat)
    ensures Rounds(m, v, t + 1) == Round(t, Rounds(m, v, t), W(m, t))
  {
  }

  lemma NoRounds(m: Block, v: State)
    ensures Rounds(m, v, 0) == v
  {
  }

  // ---------- the message schedule ----------

  lemma Words16(m: Block)
    requires IsAbc(m)
    ensures W(m, 16) == 0xc2c4c700 && W(m, 17) == 0x00000000 && W(m, 18) == 0x00000030 && W(m, 19) == 0x85898e01
  {
    hide W;
    FirstWords(m);
    NextWord(m, 16);
    NextWord(m, 17);
    NextWord(m, 18);
    NextWord(m, 19);
  }

  lemma Words20(m: Block)
    requires IsAbc(m)
    ensures W(m, 20) == 0x00000000 && W(m, 21) == 0x00000060 && W(m, 22) == 0x0b131c03 && W(m, 23) == 0x00000030
  {
    hide W;
    FirstWords(m);
    Words16(m);
    NextWord(m, 20);
    NextWord(m, 21);
    NextWord(m, 22);
    NextWord(m, 23);
  }

  lemma Words24(m: Block)
    requires IsAbc(m)
    ensures W(m, 24) == 0x85898ec1 && W(m, 25) == 0x16263806 && W(m, 26) == 0x00000000 && W(m, 27) == 0x00000180
  {
    hide W;
    FirstWords(m);
    Words16(m);
    Words20(m);
    NextWord(m, 24);
    NextWord(m, 25);
    NextWord(m, 26);
    NextWord(m, 27);
  }

  lemma Words28(m: Block)
    requires IsAbc(m)
    ensures W(m, 28) == 0x2c4c700c && W(m, 29) == 0x000000f0 && W(m, 30) == 0x93afb507 && W(m, 31) == 0x5898e048
  {
    hide W;
    FirstWords(m);
    Words16(m);
    Words20(m);
    Words24(m);
    NextWord(m, 28);
    NextWord(m, 29);
    NextWord(m, 30);
    NextWord(m, 31);
  }

  lemma Words32(m: Block)
    requires IsAbc(m)
    ensures W(m, 32) == 0x8e9a9202 && W(m, 33) == 0x00000600 && W(m, 34) == 0xb131c0f0 && W(m, 35) == 0x16263bc6
  {
    hide W;
    Words16(m);
    Words20(m);
    Words24(m);
    Words28(m);
    NextWord(m, 32);
    NextWord(m, 33);
    NextWord(m, 34);
    NextWord(m, 35);
  }

  lemma Words36(m: Block)
    requires IsAbc(m)
    ensures W(m, 36) == 0x4ebed41e && W(m, 37) == 0x626380a1 && W(m, 38) == 0x16263806 && W(m, 39) == 0x000018c0
  {
    hide W;
    Words20(m);
    Words24(m);
    Words28(m);
    Words32(m);
    NextWord(m, 36);
    NextWord(m, 37);
    NextWord(m, 38);
    NextWord(m, 39);
  }

  lemma Words40(m: Block)
    requires IsAbc(m)
    ensures W(m, 40) == 0xd2e138c4 && W(m, 41) == 0x00000f00 && W(m, 42) == 0x3afb5079 && W(m, 43) == 0x898e04e5
  {
    hide W;
    Words24(m);
    Words28(m);
    Words32(m);
    Words36(m);
    NextWord(m, 40);
    NextWord(m, 41);
    NextWord(m, 42);
    NextWord(m, 43);
  }

  lemma Words44(m: Block)
    requires IsAbc(m)
    ensures W(m, 44) == 0xe2ba3c2b && W(m, 45) == 0x000060c0 && W(m, 46) == 0x053a37cd && W(m, 47) == 0x74458547
  {
    hide W;
    Words28(m);
    Words32(m);
    Words36(m);
    Words40(m);
    NextWord(m, 44);
    NextWord(m, 45);
    NextWord(m, 46);
    NextWord(m, 47);
  }

  lemma Words48(m: Block)
    requires IsAbc(m)
    ensures W(m, 48) == 0xda9415ed && W(m, 49) == 0x26380a16 && W(m, 50) == 0x626383a1 && W(m, 51) == 0x4ebf54de
  {
    hide W;
    Words32(m);
    Words36(m);
    Words40(m);
    Words44(m);
    NextWord(m, 48);
    NextWord(m, 49);
    NextWord(m, 50);
    NextWord(m, 51);
  }

  lemma Words52(m: Block)
    requires IsAbc(m)
    ensures W(m, 52) == 0x3835b44b && W(m, 53) == 0x0000f600 && W(m, 54) == 0x1e84c7a3 && W(m, 55) == 0x98e04d98
  {
    hide W;
    Words36(m);
    Words40(m);
    Words44(m);
    Words48(m);
    NextWord(m, 52);
    NextWord(m, 53);
    NextWord(m, 54);
    NextWord(m, 55);
  }

  lemma Words56(m: Block)
    requires IsAbc(m)
    ensures W(m, 56) == 0x651d16a0 && W(m, 57) == 0x62658ca1 && W(m, 58) == 0x458544d6 && W(m, 59) == 0x44584cb7
  {
    hide W;
    Words40(m);
    Words44(m);
    Words48(m);
    Words52(m);
    NextWord(m, 56);
    NextWord(m, 57);
    NextWord(m, 58);
    NextWord(m, 59);
  }

  lemma Words60(m: Block)
    requires IsAbc(m)
    ensures W(m, 60) == 0x7ba06619 && W(m, 61) == 0x6380aea2 && W(m, 62) == 0x0ae55269 && W(m, 63) == 0x627b49a1
  {
    hide W;
    Words44(m);
    Words48(m);
    Words52(m);
    Words56(m);
    NextWord(m, 60);
    NextWord(m, 61);
    NextWord(m, 62);
    NextWord(m, 63);
  }

  lemma Words64(m: Block)
    requires IsAbc(m)
    ensures W(m, 64) == 0x7cd45c9d && W(m, 65) == 0x000f0000 && W(m, 66) == 0xfb50753a && W(m, 67) == 0xec6765e8
  {
    hide W;
    Words48(m);
    Words52(m);
    Words56(m);
    Words60(m);
    NextWord(m, 64);
    NextWord(m, 65);
    NextWord(m, 66);
    NextWord(m, 67);
  }

  lemma Words68(m: Block)
    requires IsAbc(m)
    ensures W(m, 68) == 0xba3c2be2 && W(m, 69) == 0x0060c000 && W(m, 70) == 0x3a37cd05 && W(m, 71) == 0x458546f4
  {
    hide W;
    Words52(m);
    Words56(m);
    Words60(m);
    Words64(m);
    NextWord(m, 68);
    NextWord(m, 69);
    NextWord(m, 70);
    NextWord(m, 71);
  }

  lemma Words72(m: Block)
    requires IsAbc(m)
    ensures W(m, 72) == 0xb8599dd6 && W(m, 73) == 0x380a1a26 && W(m, 74) == 0x01e02203 && W(m, 75) == 0xe7cc3456
  {
    hide W;
    Words56(m);
    Words60(m);
    Words64(m);
    Words68(m);
    NextWord(m, 72);
    NextWord(m, 73);
    NextWord(m, 74);
    NextWord(m, 75);
  }

  lemma Words76(m: Block)
    requires IsAbc(m)
    ensures W(m, 76) == 0xe6e60b69 && W(m, 77) == 0x00f60a00 && W(m, 78) == 0x5795ef4f && W(m, 79) == 0x822e0879
  {
    hide W;
    Words60(m);
    Words64(m);
    Words68(m);
    Words72(m);
    NextWord(m, 76);
    NextWord(m, 77);
    NextWord(m, 78);
    NextWord(m, 79);
  }

  // ---------- the working variables ----------

  lemma Rounds4(m: Block)
    requires IsAbc(m)
    ensures Rounds(m, INITIAL, 4) == State(0xcdd8e11b, 0xa1390f08, 0x626414db, 0xc045bf0c, 0x59d148c0)
  {
    hide W, Rounds;
    NoRounds(m, INITIAL);
    FirstWords(m);
    NextRound(m, INITIAL, 0);
    NextRound(m, INITIAL, 1);
    NextRound(m, INITIAL, 2);
    NextRound(m, INITIAL, 3);
  }

  lemma Rounds8(m: Block)
    requires IsAbc(m)
    ensures Rounds(m, INITIAL, 8) == State(0x9e8c07d4, 0x993e30c1, 0x0ff1f290, 0xb3f52677, 0xf3763846)
  {
    hide W, Rounds;
    Rounds4(m);
    FirstWords(m);
    NextRound(m, INITIAL, 4);
    NextRound(m, INITIAL, 5);
    NextRound(m, INITIAL, 6);
    NextRound(m, INITIAL, 7);
  }

  lemma Rounds12(m: Block)
    requires IsAbc(m)
    ensures Rounds(m, INITIAL, 12) == State(0x63188fe4, 0xfbda9e89, 0x60d47e4a, 0x12dab8ca, 0x27a301f5)
  {
    hide W, Rounds;
    Rounds8(m);
    FirstWords(m);
    NextRound(m, INITIAL, 8);
    NextRound(m, INITIAL, 9);
    NextRound(m, INITIAL, 10);
    NextRound(m, INITIAL, 11);
  }

  lemma Rounds16(m: Block)
    requires IsAbc(m)
    ensures Rounds(m, INITIAL, 16) == State(0x20bdd62f, 0x196bee77, 0x644a3da5, 0x1181ed99, 0x18c623f9)
  {
    hide W, Rounds;
    Rounds12(m);
    FirstWords(m);
    NextRound(m, INITIAL, 12);
    NextRound(m, INITIAL, 13);
    NextRound(m, INITIAL, 14);
    NextRound(m, INITIAL, 15);
  }

  lemma Rounds20(m: Block)
    requires IsAbc(m)
    ensures Rounds(m, INITIAL, 20) == State(0xfd9e1d7d, 0xdc64901d, 0x20aa99ca, 0xd3a49608, 0xc82f758b)
  {
    hide W, Rounds;
    Rounds16(m);
    Words16(m);
    NextRound(m, INITIAL, 16);
    NextRound(m, INITIAL, 17);
    NextRound(m, INITIAL, 18);
    NextRound(m, INITIAL, 19);
  }

  lemma Rounds24(m: Block)
    requires IsAbc(m)
    ensures Rounds(m, INITIAL, 24) == State(0xd541f12d, 0x21283486, 0x0ce88eff, 0x868dec32, 0x7f67875f)
  {
    hide W, Rounds;
    Rounds20(m);
    Words20(m);
    NextRound(m, INITIAL, 20);
    NextRound(m, INITIAL, 21);
    NextRound(m, INITIAL, 22);
    NextRound(m, INITIAL, 23);
  }

  lemma Rounds28(m: Block)
    requires IsAbc(m)
    ensures Rounds(m, INITIAL, 28) == State(0x4aa84d97, 0xbe35fbd5, 0x12104ee9, 0xb1d59f71, 0x75507c4b)
  {
    hide W, Rounds;
    Rounds24(m);
    Words24(m);
    NextRound(m, INITIAL, 24);
    NextRound(m, INITIAL, 25);
    NextRound(m, INITIAL, 26);
    NextRound(m, INITIAL, 27);
  }

  lemma Rounds32(m: Block)
    requires IsAbc(m)
    ensures Rounds(m, INITIAL, 32) == State(0x3b845d33, 0x1267b407, 0x717eebd7, 0xa0dc2d4b, 0xd2aa1365)
  {
    hide W, Rounds;
    Rounds28(m);
    Words28(m);
    NextRound(m, INITIAL, 28);
    NextRound(m, INITIAL, 29);
    NextRound(m, INITIAL, 30);
    NextRound(m, INITIAL, 31);
  }

  lemma Rounds36(m: Block)
    requires IsAbc(m)
    ensures Rounds(m, INITIAL, 36) == State(0xdcbbb0cb, 0x21796ad4, 0x4b03af04, 0x811bea82, 0xcee1174c)
  {
    hide W, Rounds;
    Rounds32(m);
    Words32(m);
    NextRound(m, INITIAL, 32);
    NextRound(m, INITIAL, 33);
    NextRound(m, INITIAL, 34);
    NextRound(m, INITIAL, 35);
  }

  lemma Rounds40(m: Block)
    requires IsAbc(m)
    ensures Rounds(m, INITIAL, 40) == State(0x32de1cba, 0x4c986405, 0xf718e5cf, 0x03d447f6, 0xf72eec32)
  {
    hide W, Rounds;
    Rounds36(m);
    Words36(m);
    NextRound(m, INITIAL, 36);
    NextRound(m, INITIAL, 37);
    NextRound(m, INITIAL, 38);
    NextRound(m, INITIAL, 39);
  }

  lemma Rounds44(m: Block)
    requires IsAbc(m)
    ensures Rounds(m, INITIAL, 44) == State(0xee1b1aaf, 0x7f193dc5, 0x25c28357, 0xff21f7b7, 0x8cb7872e)
  {
    hide W, Rounds;
    Rounds40(m);
    Words40(m);
    NextRound(m, INITIAL, 40);
    NextRound(m, INITIAL, 41);
    NextRound(m, INITIAL, 42);
    NextRound(m, INITIAL, 43);
  }

  lemma Rounds48(m: Block)
    requires IsAbc(m)
    ensures Rounds(m, INITIAL, 48) == State(0xbead02ca, 0xa01b846c, 0x8714787c, 0x503ca382, 0xfb86c6ab)
  {
    hide W, Rounds;
    Rounds44(m);
    Words44(m);
    NextRound(m, INITIAL, 44);
    NextRound(m, INITIAL, 45);
    NextRound(m, INITIAL, 46);
    NextRound(m, INITIAL, 47);
  }

  lemma Rounds52(m: Block)
    requires IsAbc(m)
    ensures Rounds(m, INITIAL, 52) == State(0x3847ad66, 0x641db2ce, 0x4481cc71, 0xeebce4cd, 0xafab40b2)
  {
    hide W, Rounds;
    Rounds48(m);
    Words48(m);
    NextRound(m, INITIAL, 48);
    NextRound(m, INITIAL, 49);
    NextRound(m, INITIAL, 50);
    NextRound(m, INITIAL, 51);
  }

  lemma Rounds56(m: Block)
    requires IsAbc(m)
    ensures Rounds(m, INITIAL, 56) == State(0x5e6456af, 0x7b71f76d, 0x09fa7c76, 0x792410db, 0x8e11eb59)
  {
    hide W, Rounds;
    Rounds52(m);
    Words52(m);
    NextRound(m, INITIAL, 52);
    NextRound(m, INITIAL, 53);
    NextRound(m, INITIAL, 54);
    NextRound(m, INITIAL, 55);
  }

  lemma Rounds60(m: Block)
    requires IsAbc(m)
    ensures Rounds(m, INITIAL, 60) == State(0x3f52de5a, 0x09d785fd, 0x3498bfd4, 0xf211824f, 0xd79915ab)
  {
    hide W, Rounds;
    Rounds56(m);
    Words56(m);
    NextRound(m, INITIAL, 56);
    NextRound(m, INITIAL, 57);
    NextRound(m, INITIAL, 58);
    NextRound(m, INITIAL, 59);
  }

  lemma Rounds64(m: Block)
    requires IsAbc(m)
    ensures Rounds(m, INITIAL, 64) == State(0x6b61c9e1, 0xb66c020b, 0x9523272c, 0xf5d5b051, 0x8fd4b796)
  {
    hide W, Rounds;
    Rounds60(m);
    Words60(m);
    NextRound(m, INITIAL, 60);
    NextRound(m, INITIAL, 61);
    NextRound(m, INITIAL, 62);
    NextRound(m, INITIAL, 63);
  }

  lemma Rounds68(m: Block)
    requires IsAbc(m)
    ensures Rounds(m, INITIAL, 68) == State(0x78dd4d2b, 0x0c3df2b4, 0x4405957e, 0x0677e9eb, 0x5ad87278)
  {
    hide W, Rounds;
    Rounds64(m);
    Words64(m);
    NextRound(m, INITIAL, 64);
    NextRound(m, INITIAL, 65);
    NextRound(m, INITIAL, 66);
    NextRound(m, INITIAL, 67);
  }

  lemma Rounds72(m: Block)
    requires IsAbc(m)
    ensures Rounds(m, INITIAL, 72) == State(0x39859de7, 0xc199f8c7, 0x8fc96230, 0x125c24f0, 0xde37534a)
  {
    hide W, Rounds;
    Rounds68(m);
    Words68(m);
    NextRound(m, INITIAL, 68);
    NextRound(m, INITIAL, 69);
    NextRound(m, INITIAL, 70);
    NextRound(m, INITIAL, 71);
  }

  lemma Rounds76(m: Block)
    requires IsAbc(m)
    ensures Rounds(m, INITIAL, 76) == State(0x63f7dab7, 0x5ee76897, 0xc45e4fdb, 0x3b6d0b79, 0xce616779)
  {
    hide W, Rounds;
    Rounds72(m);
    Words72(m);
    NextRound(m, INITIAL, 72);
    NextRound(m, INITIAL, 73);
    NextRound(m, INITIAL, 74);
    NextRound(m, INITIAL, 75);
  }

  lemma Rounds80(m: Block)
    requires IsAbc(m)
    ensures Rounds(m, INITIAL, 80) == State(0x42541b35, 0x5738d5e1, 0x21834873, 0x681e6df6, 0xd8fdf6ad)
  {
    hide W, Rounds;
    Rounds76(m);
    Words76(m);
    NextRound(m, INITIAL, 76);
    NextRound(m, INITIAL, 77);
    NextRound(m, INITIAL, 78);
    NextRound(m, INITIAL, 79);
  }

  // ---------- the digest ----------

  lemma AbcLength()
    ensures BigEndian(24, 8) == [0, 0, 0, 0, 0, 0, 0, 24]
  {
    assert Radix.Digits(0, 7) == [0, 0, 0, 0, 0, 0, 0];
    assert Radix.Digits(24, 8) == Radix.Digits(0, 7) + [24];
  }

  lemma AbcPadded()
    ensures |Padded(ABC)| == 64 && IsAbc(Padded(ABC))
  {
    AbcLength();
    assert Padded(ABC) == ABC + [0x80] + Zeros(52) + BigEndian(24, 8);
  }

  lemma AbcHash()
    ensures HashBlocks(INITIAL, Padded(ABC)) == State(0xa9993e36, 0x4706816a, 0xba3e2571, 0x7850c26c, 0x9cd0d89d)
  {
    hide Rounds;
    AbcPadded();
    var m: Block := Padded(ABC);
    Rounds80(m);
    assert Padded(ABC)[..64] == m && Padded(ABC)[64..] == [];
  }

  /** The digest that the standard gives. */
  lemma AbcDigest()
    ensures Digest(ABC) == [0xa9, 0x99, 0x3e, 0x36, 0x47, 0x06, 0x81, 0x6a,
                            0xba, 0x3e, 0x25, 0x71, 0x78, 0x50, 0xc2, 0x6c,
                            0x9c, 0xd0, 0xd8, 0x9d]
  {
    hide HashBlocks;
    AbcHash();
  }
}
